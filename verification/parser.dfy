/**
 The recipe parser `parseRecipes` of script.js as pure functions: a document
 is cut into blocks at the occurrences of `---` found by a left-to-right
 search that resumes just after the previous occurrence, each non-blank
 block is scanned line by line with a small section state, and the blocks
 that received a title become recipes, in document order.
 */
module RecipeParser {
  import opened Strings
  import opened Splitting
  import opened Numbering

  /** One parsed recipe. Fields the block never sets stay empty. */
  datatype Recipe = Recipe(title: string, date: string, ingredients: seq<string>, instructions: seq<string>)

  /** The `currentSection` marker: `''`, `'ingredients'` or `'instructions'`. */
  datatype Section = NoSection | Ingredients | Instructions

  /** What the line scan of one block carries from line to line. */
  datatype ScanState = ScanState(recipe: Recipe, section: Section)

  const BlockSeparator := "---"
  const LineSeparator := "\n"
  const TitleMarker := "# "
  const DateMarker := "Дата:"
  const IngredientsHeading := "## Ингредиенты:"
  const InstructionsHeading := "## Способ приготовления:"
  const BulletMarker := "- "

  /** The recipe fields start empty. */
  const EmptyRecipe := Recipe("", "", [], [])

  /** The state every block starts from: an empty recipe and no section. */
  const InitialState := ScanState(EmptyRecipe, NoSection)

  /** The lines of a (trimmed) block. */
  function BlockLines(block: string): (lines: seq<string>)
    ensures |lines| >= 1
  {
    Split(Trim(block), LineSeparator)
  }

  /** What a line says, read by the first-match chain of `parseRecipes` with
      the section tests left out; the payload is the text the line stores. */
  datatype LineKind =
    | TitleLine(title: string)
    | DateLine(date: string)
    | IngredientsHeadingLine
    | InstructionsHeadingLine
    | BulletLine(item: string)
    | NumberedLine(step: string)
    | OtherLine

  /** A marker prefix fixes the first characters of the line. */
  lemma StartsWithHead(s: string, p: string, k: nat)
    requires StartsWith(s, p) && k < |p|
    ensures s[k] == p[k]
  {
    assert s[k] == s[..|p|][k];
  }

  /** The six tests of the chain exclude one another: no trimmed line passes two. */
  lemma MarkersExclusive(t: string)
    ensures StartsWith(t, TitleMarker) ==>
      !StartsWith(t, DateMarker) && !StartsWith(t, IngredientsHeading) && !StartsWith(t, InstructionsHeading) &&
      !StartsWith(t, BulletMarker) && !IsNumbered(t)
    ensures StartsWith(t, DateMarker) ==>
      !StartsWith(t, IngredientsHeading) && !StartsWith(t, InstructionsHeading) &&
      !StartsWith(t, BulletMarker) && !IsNumbered(t)
    ensures StartsWith(t, IngredientsHeading) ==>
      !StartsWith(t, InstructionsHeading) && !StartsWith(t, BulletMarker) && !IsNumbered(t)
    ensures StartsWith(t, InstructionsHeading) ==> !StartsWith(t, BulletMarker) && !IsNumbered(t)
    ensures StartsWith(t, BulletMarker) ==> !IsNumbered(t)
  {
    if StartsWith(t, TitleMarker) {
      StartsWithHead(t, TitleMarker, 0);
      StartsWithHead(t, TitleMarker, 1);
    }
    if StartsWith(t, DateMarker) {
      StartsWithHead(t, DateMarker, 0);
    }
    if StartsWith(t, IngredientsHeading) {
      StartsWithHead(t, IngredientsHeading, 0);
      StartsWithHead(t, IngredientsHeading, 1);
      StartsWithHead(t, IngredientsHeading, 3);
    }
    if StartsWith(t, InstructionsHeading) {
      StartsWithHead(t, InstructionsHeading, 0);
      StartsWithHead(t, InstructionsHeading, 1);
      StartsWithHead(t, InstructionsHeading, 3);
    }
    if StartsWith(t, BulletMarker) {
      StartsWithHead(t, BulletMarker, 0);
    }
    if IsNumbered(t) {
      assert IsDigit(t[0]) by {
        assert t[..LeadingDigits(t)][0] == t[0];
      }
    }
  }

  /** The line is trimmed, then the first prefix test that passes decides its
      kind. Because the tests are exclusive, each kind holds exactly when its
      own test passes. The title keeps the text after the two characters of
      `"# "` and is never empty; the date keeps the text from index 6 on (one
      character past the five of `"Дата:"`), so a bare `"Дата:"` stores the
      empty text; an item keeps the text after `"- "`; a step keeps the text
      after its number, period and whitespace. */
  function Classify(raw: string): (k: LineKind)
    ensures var t := Trim(raw);
      && (k.TitleLine? <==> StartsWith(t, TitleMarker))
      && (k.DateLine? <==> StartsWith(t, DateMarker))
      && (k.IngredientsHeadingLine? <==> StartsWith(t, IngredientsHeading))
      && (k.InstructionsHeadingLine? <==> StartsWith(t, InstructionsHeading))
      && (k.BulletLine? <==> StartsWith(t, BulletMarker))
      && (k.NumberedLine? <==> IsNumbered(t))
    ensures k.TitleLine? ==> k.title == Drop(Trim(raw), 2) && k.title != []
    ensures k.DateLine? ==> k.date == Drop(Trim(raw), 6) && (|Trim(raw)| <= 6 ==> k.date == [])
    ensures k.BulletLine? ==> k.item == Drop(Trim(raw), 2)
    ensures k.NumberedLine? ==> k.step == StripNumberPrefix(Trim(raw)) && (k.step == [] || !IsSpace(k.step[0]))
  {
    var t := Trim(raw);
    MarkersExclusive(t);
    if StartsWith(t, TitleMarker) then
      StartsWithHead(t, TitleMarker, 1);
      TitleLine(Drop(t, 2))
    else if StartsWith(t, DateMarker) then DateLine(Drop(t, 6))
    else if StartsWith(t, IngredientsHeading) then IngredientsHeadingLine
    else if StartsWith(t, InstructionsHeading) then InstructionsHeadingLine
    else if StartsWith(t, BulletMarker) then BulletLine(Drop(t, 2))
    else if IsNumbered(t) then NumberedLine(StripNumberPrefix(t))
    else OtherLine
  }

  /** The kinds of `lines`, line by line. */
  function ClassifyAll(lines: seq<string>): (kinds: seq<LineKind>)
    ensures |kinds| == |lines|
    ensures forall i :: 0 <= i < |lines| ==> kinds[i] == Classify(lines[i])
  {
    seq(|lines|, i requires 0 <= i < |lines| => Classify(lines[i]))
  }

  /** The effect of one line on the state: title and date lines overwrite
      their field, headings switch the section, a bullet is appended to the
      ingredients and a numbered line to the instructions only while their
      section is in force; anything else changes nothing. */
  function Apply(st: ScanState, k: LineKind): ScanState
  {
    match k
    case TitleLine(title) => st.(recipe := st.recipe.(title := title))
    case DateLine(date) => st.(recipe := st.recipe.(date := date))
    case IngredientsHeadingLine => st.(section := Ingredients)
    case InstructionsHeadingLine => st.(section := Instructions)
    case BulletLine(item) =>
      if st.section == Ingredients then st.(recipe := st.recipe.(ingredients := st.recipe.ingredients + [item]))
      else st
    case NumberedLine(step) =>
      if st.section == Instructions then st.(recipe := st.recipe.(instructions := st.recipe.instructions + [step]))
      else st
    case OtherLine => st
  }

  /** The state after applying `kinds` in order to `InitialState`. */
  function Scan(kinds: seq<LineKind>): ScanState
  {
    if |kinds| == 0 then InitialState
    else Apply(Scan(kinds[..|kinds| - 1]), kinds[|kinds| - 1])
  }

  /** The recipe one block describes (emitted or not). */
  function ParseBlock(block: string): Recipe
  {
    Scan(ClassifyAll(BlockLines(block))).recipe
  }

  /** What one block contributes to the result: nothing when it is blank
      (after trimming) or its recipe has no title, else its recipe. */
  function BlockRecipes(block: string): (recipes: seq<Recipe>)
    ensures |recipes| <= 1
    ensures forall i :: 0 <= i < |recipes| ==> recipes[i].title != []
  {
    if Trim(block) == [] then []
    else
      var recipe := ParseBlock(block);
      if recipe.title != [] then [recipe] else []
  }

  /** The recipes of `blocks`, in order. */
  function ParseBlocks(blocks: seq<string>): (recipes: seq<Recipe>)
    ensures |recipes| <= |blocks|
    ensures forall i :: 0 <= i < |recipes| ==> recipes[i].title != []
  {
    if |blocks| == 0 then []
    else ParseBlocks(blocks[..|blocks| - 1]) + BlockRecipes(blocks[|blocks| - 1])
  }

  /** `parseRecipes(markdownData)`: every recipe it returns has a title, and
      there are no more recipes than `---`-separated blocks. */
  function ParseRecipes(markdown: string): (recipes: seq<Recipe>)
    ensures |recipes| <= |Split(markdown, BlockSeparator)|
    ensures forall i :: 0 <= i < |recipes| ==> recipes[i].title != []
  {
    ParseBlocks(Split(markdown, BlockSeparator))
  }

  /** Scanning one more line applies it to the state reached so far. */
  lemma ScanPrefix(kinds: seq<LineKind>, i: nat)
    requires i < |kinds|
    ensures Scan(kinds[..i + 1]) == Apply(Scan(kinds[..i]), kinds[i])
  {
    assert kinds[..i + 1][..i] == kinds[..i];
  }

  /** Parsing one more block appends what it contributes. */
  lemma ParseBlocksPrefix(blocks: seq<string>, b: nat)
    requires b < |blocks|
    ensures ParseBlocks(blocks[..b + 1]) == ParseBlocks(blocks[..b]) + BlockRecipes(blocks[b])
  {
    assert blocks[..b + 1][..b] == blocks[..b];
  }
}
