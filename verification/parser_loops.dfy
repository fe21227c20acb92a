/**
 `parseRecipes` as written: the blank-block `filter`, the outer `forEach`
 over the blocks and the inner `forEach` over the lines, with one mutable
 recipe and section per block. Each method is proved to compute what the
 functions of `RecipeParser` compute, and states what that result is in
 terms of the text it reads.
 */
module ParserLoops {
  import opened Strings
  import opened Splitting
  import opened Numbering
  import opened RecipeParser
  import opened BlockProperties
  import opened DocumentProperties

  /** The callback of the inner `forEach` as written: the line is trimmed
      and run through the `if` chain, in which the two list rules also test
      the section and fall through to the next test when it is not in force.
      Rule precedence: this has the same effect as classifying the line on
      its own and then applying it to the current state. */
  method ReadLine(recipe: Recipe, section: Section, raw: string) returns (recipe': Recipe, section': Section)
    ensures ScanState(recipe', section') == Apply(ScanState(recipe, section), Classify(raw))
  {
    recipe', section' := recipe, section;
    var line := Trim(raw);
    MarkersExclusive(line);
    if StartsWith(line, TitleMarker) {
      recipe' := recipe.(title := Drop(line, 2));
    } else if StartsWith(line, DateMarker) {
      recipe' := recipe.(date := Drop(line, 6));
    } else if StartsWith(line, IngredientsHeading) {
      section' := Ingredients;
    } else if StartsWith(line, InstructionsHeading) {
      section' := Instructions;
    } else if StartsWith(line, BulletMarker) && section == Ingredients {
      recipe' := recipe.(ingredients := recipe.ingredients + [Drop(line, 2)]);
    } else if IsNumbered(line) && section == Instructions {
      recipe' := recipe.(instructions := recipe.instructions + [StripNumberPrefix(line)]);
    }
  }

  /** The inner `forEach` as written: one mutable recipe and section,
      updated line by line. It computes exactly the state `Scan` reaches. */
  method ScanLoop(lines: seq<string>) returns (recipe: Recipe, section: Section)
    ensures ScanState(recipe, section) == Scan(ClassifyAll(lines))
  {
    ghost var kinds := ClassifyAll(lines);
    recipe := EmptyRecipe;
    section := NoSection;
    var i := 0;
    assert kinds[..0] == [];
    while i < |lines|
      invariant 0 <= i <= |lines|
      invariant ScanState(recipe, section) == Scan(kinds[..i])
    {
      recipe, section := ReadLine(recipe, section, lines[i]);
      ScanPrefix(kinds, i);
      i := i + 1;
    }
    assert kinds[..|lines|] == kinds;
  }

  /** The trimming, line cutting and line loop of the outer `forEach` as
      written. The recipe is the one of `ParseBlock`: its title is the text
      after `"# "` of the last trimmed line that starts with `"# "`, and its
      date the text from index 6 of the last one that starts with `"Дата:"`,
      each empty when there is no such line. */
  method ParseBlockLoop(block: string) returns (recipe: Recipe)
    ensures recipe == ParseBlock(block)
    ensures forall j: nat :: IsLastMarkerLine(BlockLines(block), TitleMarker, j) ==>
      recipe.title == Drop(Trim(BlockLines(block)[j]), 2)
    ensures !HasMarkerLine(BlockLines(block), TitleMarker) ==> recipe.title == []
    ensures forall j: nat :: IsLastMarkerLine(BlockLines(block), DateMarker, j) ==>
      recipe.date == Drop(Trim(BlockLines(block)[j]), 6)
    ensures !HasMarkerLine(BlockLines(block), DateMarker) ==> recipe.date == []
  {
    var lines := Split(Trim(block), LineSeparator);
    var section;
    recipe, section := ScanLoop(lines);
    forall j: nat | IsLastMarkerLine(lines, TitleMarker, j) ensures recipe.title == Drop(Trim(lines[j]), 2) {
      LastTitleMarkerWins(block, j);
    }
    forall j: nat | IsLastMarkerLine(lines, DateMarker, j) ensures recipe.date == Drop(Trim(lines[j]), 6) {
      LastDateMarkerWins(block, j);
    }
    if !HasMarkerLine(lines, TitleMarker) {
      NoTitleMarkerNoTitle(block);
    }
    if !HasMarkerLine(lines, DateMarker) {
      NoDateMarkerNoDate(block);
    }
  }

  /** The callback of the outer `forEach` as written: the block is parsed
      and its recipe kept when its title is non-empty. It keeps at most one
      recipe, the block's own, and keeps one exactly when some trimmed line
      of the block starts with `"# "`. */
  method ReadBlock(block: string) returns (kept: seq<Recipe>)
    ensures |kept| <= 1
    ensures kept != [] <==> HasMarkerLine(BlockLines(block), TitleMarker)
    ensures forall r :: r in kept ==> r == ParseBlock(block) && r.title != []
  {
    kept := [];
    var recipe := ParseBlockLoop(block);
    if recipe.title != [] {
      kept := [recipe];
    }
    TitledIffTitleMarker(block);
  }

  /** The `filter` of `parseRecipes` as written: the blocks that are not
      blank after trimming, in order. The kept blocks are `NonBlank(blocks)`:
      the list's non-blank blocks in their order and with their repetitions,
      `idx` giving their positions in increasing order. Dropping the blank
      ones changes nothing the blocks parse to. */
  method KeepNonBlank(blocks: seq<string>) returns (kept: seq<string>, ghost idx: seq<nat>)
    ensures kept == NonBlank(blocks)
    ensures |idx| == |kept| && StrictlyIncreasing(idx)
    ensures forall i :: 0 <= i < |idx| ==> idx[i] < |blocks| && kept[i] == blocks[idx[i]]
    ensures forall j :: 0 <= j < |blocks| && Trim(blocks[j]) != [] ==> j in idx
    ensures |kept| <= |blocks|
    ensures forall i :: 0 <= i < |kept| ==> Trim(kept[i]) != [] && kept[i] in blocks
    ensures forall j :: 0 <= j < |blocks| && Trim(blocks[j]) != [] ==> blocks[j] in kept
    ensures ParseBlocks(kept) == ParseBlocks(blocks)
  {
    kept := [];
    var i := 0;
    assert blocks[..0] == [];
    while i < |blocks|
      invariant 0 <= i <= |blocks|
      invariant kept == NonBlank(blocks[..i])
    {
      assert blocks[..i + 1][..i] == blocks[..i];
      if Trim(blocks[i]) != [] {
        kept := kept + [blocks[i]];
      }
      i := i + 1;
    }
    assert blocks[..|blocks|] == blocks;
    NonBlankKeepsOnlyNonBlank(blocks);
    NonBlankKeepsAll(blocks);
    NonBlankParsesAlike(blocks);
    idx := NonBlankIsSubsequence(blocks);
  }

  /** `parseRecipes` as written: the document is cut at `---`, the blank
      blocks are filtered out, and the remaining blocks are read in order,
      the recipes kept being appended to the result. It computes exactly
      `ParseRecipes`. */
  method ParseRecipesLoop(markdown: string) returns (recipes: seq<Recipe>)
    ensures recipes == ParseRecipes(markdown)
    ensures forall i :: 0 <= i < |recipes| ==> recipes[i].title != []
  {
    var blocks, _ := KeepNonBlank(Split(markdown, BlockSeparator));
    recipes := [];
    var b := 0;
    while b < |blocks|
      invariant 0 <= b <= |blocks|
      invariant recipes == ParseBlocks(blocks[..b])
    {
      var kept := ReadBlock(blocks[b]);
      KeptIsContribution(blocks[b], kept);
      ParseBlocksPrefix(blocks, b);
      recipes := recipes + kept;
      b := b + 1;
    }
    assert blocks[..|blocks|] == blocks;
  }

  /** For a non-blank block, what `ReadBlock` promises to keep is exactly
      what the block contributes. */
  lemma KeptIsContribution(block: string, kept: seq<Recipe>)
    requires Trim(block) != []
    requires |kept| <= 1
    requires kept != [] <==> HasMarkerLine(BlockLines(block), TitleMarker)
    requires forall r :: r in kept ==> r == ParseBlock(block)
    ensures kept == BlockRecipes(block)
  {
    TitledIffTitleMarker(block);
    if kept != [] {
      assert kept[0] in kept;
    }
  }
}
