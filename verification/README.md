# Recipe parser model

A Dafny model of `parseRecipes` from the recipe book page's `script.js`. The
function turns a Markdown-like text into an ordered list of recipes. Each
recipe has a title, a date, a list of ingredients and a list of instructions.
The parser works like this:

- It cuts the text into blocks at the occurrences of `---` that a
  left-to-right search finds, each search resuming after the previous
  occurrence, and drops the blocks that are blank after trimming.
- It trims each remaining block, cuts it into lines at `\n` and trims each line.
- It reads the lines in order with a three-valued section state, which starts
  empty in every block. A first-match chain of prefix tests on each line
  handles `# `, `Дата:`, `## Ингредиенты:`, `## Способ приготовления:`,
  `- ` and `^\d+\.`.
- It keeps the recipe of every block whose title ended up non-empty.

The project has these modules:

- `Strings` (strings.dfy): the JavaScript whitespace set, `trim`, `startsWith`
  and the one-argument `substring`.
- `Splitting` (split.dfy): `split` with a string separator, as a
  left-to-right, non-overlapping search.
- `Numbering` (numbering.dfy): the test `^\d+\.` and the replacement of
  `^\d+\.\s*` by the empty string.
- `RecipeParser` (parser.dfy): the recipe data model and the parser as pure
  functions. `Classify` reads one line, `Apply` applies it to the state,
  `Scan` folds over the lines, and `ParseBlock`, `BlockRecipes` and
  `ParseRecipes` build the result.
- `BlockProperties` (block_properties.dfy): what the line scan of one block
  computes.
- `DocumentProperties` (document_properties.dfy): what one block and the
  whole document yield, stated over their text.
- `ParserLoops` (parser_loops.dfy): `parseRecipes` as written, with methods
  for the `if` chain (`ReadLine`), the line loop (`ScanLoop`), one block
  (`ParseBlockLoop`), the outer callback (`ReadBlock`), the blank-block
  `filter` (`KeepNonBlank`) and the whole function (`ParseRecipesLoop`).
  Each is proved to compute what the functions compute, and states what
  that result is.

`BlockRecipes` skips a blank block itself, so the functional model needs no
separate filter. `NonBlankParsesAlike` shows that filtering the blank blocks
out first gives the same result, because a blank block never gets a title.
`ParseRecipesLoop` applies the filter first, as the source does.

The blocks are cut at any occurrence of the substring `---`, even inside a
line. That is what the code does (`split('---')`), so the model does it too.
A `---` inside a line ends a block, and so do the first three dashes of
`----`. Because occurrences are found left to right, `x----y` splits into
`x` and `-y`. This is why
`BlocksParseIndependently` requires that the left part not end with `-`.

## Model

| member | source | states |
|---|---|---|
| Strings.IsSpace | script.js:34 | The characters `trim` removes and `\s` matches: the ECMAScript WhiteSpace and LineTerminator code points. |
| Strings.Trim | script.js:34 | The trimmed line begins and ends with a non-whitespace character, is no longer than the input, and is empty exactly when the input is all whitespace. |
| Strings.TrimIsInfix | script.js:34 | `trim` removes only whitespace, and only at the two ends: its result is a contiguous infix of the line, and every character before or after that infix is whitespace. |
| Strings.TrimOfTrimmed | script.js:34 | Trimming a text that is already trimmed changes nothing. Since every result of `Trim` is trimmed, `Trim(Trim(s)) == Trim(s)`. |
| Strings.StartsWith | script.js:36-44 | `startsWith`: the prefix is no longer than the text and equals the text's first characters. |
| Strings.Drop | script.js:37 | `substring(k)` clamps: its result has `len - k` characters, or none when the text is shorter than `k`, and it is the text's suffix. |
| Splitting.Find | script.js:20 | The search returns an occurrence with no earlier occurrence, and finds nothing exactly when the separator does not occur in the text. |
| Splitting.FindIsFirst | script.js:20 | Any occurrence with no occurrence before it is the one the search returns. |
| Splitting.Split | script.js:20 | `split` always returns at least one piece, and a text without the separator is returned whole as a single piece. |
| Splitting.SplitJoin | script.js:20 | Joining the pieces with the separator gives back the original text, so splitting loses nothing. |
| Splitting.SplitPiecesLackSeparator | script.js:20 | No piece contains the separator. |
| Splitting.SplitStep | script.js:20 | Where the cut falls: when `Find` returns the first occurrence at `k`, the first piece is the text before `k`, and the other pieces are the split of the text after that occurrence. |
| Splitting.SplitAppend | script.js:20 | If no occurrence straddles the end of `a`, then `a + sep + b` splits into the pieces of `a` followed by the pieces of `b`. |
| Numbering.IsDigit | script.js:46-47 | `\d`: the ASCII digits `0` to `9` only. |
| Numbering.IsNumbered | script.js:46 | The test `^\d+\.`, computed from the length of the leading digit run. What it accepts is stated by `NumberedIffPattern`. |
| Numbering.NumberedIffPattern | script.js:46 | The test succeeds exactly when some non-empty run of ASCII digits at the start of the line is followed by a period. |
| Numbering.StripNumberPrefix | script.js:47 | Without a match the line is unchanged. With one, the line is its digits, a period, a whitespace run and the result, and the result does not start with whitespace. |
| Numbering.NumberPrefixParts | script.js:47 | The matched prefix consists of the digit run, the period and a whitespace run, and the rest of the line does not start with whitespace. |
| RecipeParser.MarkersExclusive | script.js:36-48 | No trimmed line passes two of the six tests of the chain, so the order of the tests decides nothing except through the section conditions. |
| RecipeParser.Classify | script.js:34-48 | The kind of a line is title, date, either heading, bullet or numbered exactly when the trimmed line passes that rule's test. The title is the text from index 2 and is never empty. The date is the text from index 6, so a bare `Дата:` gives the empty date. A bullet item is the text from index 2. A step has its number prefix removed and does not start with whitespace. |
| RecipeParser.Apply | script.js:36-48 | The effect of one classified line on the recipe and the section. Its contract is stated by `BlockProperties.ApplyFields`, and `ParserLoops.ReadLine` proves that the `if` chain as written has this effect. |
| RecipeParser.Scan | script.js:31-49 | The fold of `Apply` over a block's lines from an empty recipe and no section. What it computes is stated by the `BlockProperties` rows, and `ParserLoops.ScanLoop` proves that the line loop computes it. |
| RecipeParser.ParseBlock | script.js:23-49 | The recipe one block describes. Its title and date are stated by `DocumentProperties.LastTitleMarkerWins` to `NoDateMarkerNoDate`, and its lists by `DocumentProperties.BlockIngredients` and `BlockInstructions`. |
| RecipeParser.BlockLines | script.js:23 | A block always has at least one line. |
| RecipeParser.BlockRecipes | script.js:51-53 | A block contributes at most one recipe, and only a recipe with a non-empty title. |
| RecipeParser.ParseBlocks | script.js:22-54 | There are no more recipes than blocks, and every recipe has a non-empty title. |
| RecipeParser.ParseRecipes | script.js:18-57 | The parser is total: every text gives a list. That list has no more recipes than `---` blocks, and each recipe has a non-empty title. |
| BlockProperties.ApplyFields | script.js:36-48 | Each line touches one part of the state. Title and date change only on their own lines, the section only on a heading, and each list gains one entry only from a list line of its kind in its section. Any other line leaves the state unchanged. |
| BlockProperties.TitleIsLastTitleLine | script.js:36-37 | Last write wins: the title is the text of the last title line of the block. |
| BlockProperties.TitleEmptyWithoutTitleLine | script.js:25 | A block without a title line has the empty title. |
| BlockProperties.TitledIffTitleLine | script.js:36-37 | When title lines carry text, the title is non-empty exactly when the block has a title line. |
| BlockProperties.DateIsLastDateLine | script.js:38-39 | Last write wins: the date is the text of the last date line of the block. |
| BlockProperties.DateEmptyWithoutDateLine | script.js:26 | A block without a date line has the empty date. |
| BlockProperties.SectionIsLastHeading | script.js:40-43 | The section in force is the one entered by the last heading read. |
| BlockProperties.SectionNoneWithoutHeading | script.js:31 | Before any heading of the block, no section is in force. |
| BlockProperties.IngredientsAreBulletLines | script.js:44-45 | The ingredients are exactly the items of the bullet lines read while the section is `Ingredients`, in line order; `idx` lists those lines in increasing order. |
| BlockProperties.InstructionsAreNumberedLines | script.js:46-47 | The instructions are exactly the steps of the numbered lines read while the section is `Instructions`, in line order. |
| BlockProperties.NoHeadingNoEntries | script.js:31-47 | Section reset: bullet and numbered lines read before any heading are ignored, so a block without headings has empty lists. |
| BlockProperties.ListsOnlyGrow | script.js:40-47 | Reading further lines only appends to the lists. Re-entering a section never clears or changes what is already there. |
| DocumentProperties.NonBlank | script.js:20 | The blank-block filter as a fold. What it keeps is stated by the rows `NonBlankKeepsOnlyNonBlank` to `NonBlankParsesAlike`. |
| DocumentProperties.NonBlankKeepsOnlyNonBlank | script.js:20 | The filtered blocks are non-blank blocks of the list, and there are no more of them than blocks. |
| DocumentProperties.NonBlankKeepsAll | script.js:20 | Every non-blank block of the list survives the filter. |
| DocumentProperties.NonBlankIsSubsequence | script.js:20 | The filtered blocks are an in-order subsequence of the list: their positions increase, and they are exactly the positions of the non-blank blocks. Order and repetitions are kept. |
| DocumentProperties.NonBlankParsesAlike | script.js:20 | Filtering out the blank blocks does not change what the blocks parse to. |
| DocumentProperties.LastTitleMarkerWins | script.js:36-37 | The title of a block is the text after `# ` of the last trimmed line that starts with `# `. |
| DocumentProperties.NoTitleMarkerNoTitle | script.js:25 | A block none of whose trimmed lines starts with `# ` has the empty title. |
| DocumentProperties.LastDateMarkerWins | script.js:38-39 | The date of a block is the text from index 6 of the last trimmed line that starts with `Дата:`. |
| DocumentProperties.NoDateMarkerNoDate | script.js:26 | A block none of whose trimmed lines starts with `Дата:` has the empty date. |
| DocumentProperties.BlankBlockHasNoTitle | script.js:20 | A blank block has no title and contributes nothing, so dropping blank blocks never loses a recipe. |
| DocumentProperties.BlockRecipesIffEmits | script.js:51-53 | A block contributes its recipe exactly when it is non-blank and its title is non-empty, and being non-blank adds nothing to the title condition. |
| DocumentProperties.TitledIffTitleMarker | script.js:34-37 | A block gets a title exactly when one of its trimmed lines starts with `# `. |
| DocumentProperties.BlockIngredients | script.js:40-45 | The ingredients of a block are exactly the texts after `- ` of its trimmed lines that start with `- ` and are read in the ingredients section, in line order. |
| DocumentProperties.BlockInstructions | script.js:42-47 | The instructions of a block are exactly its trimmed lines that match `^\d+\.` and are read in the instructions section, with the number prefix removed, in line order. |
| DocumentProperties.ParseBlocksAppend | script.js:22-54 | The recipes of two consecutive runs of blocks are those of the first run followed by those of the second. |
| DocumentProperties.RecipesAreEmittingBlocks | script.js:22-54 | Order and count: the recipes are those of exactly the emitting blocks (non-blank, with a title), one each, in block order. |
| DocumentProperties.DocumentRecipes | script.js:18-57 | `parseRecipes` returns exactly one recipe per emitting `---` block of the document, in document order. |
| DocumentProperties.SomeBlockEmits | script.js:51-56 | A non-empty result comes from some emitting block. |
| DocumentProperties.EmittingBlockGivesRecipe | script.js:51-56 | A document with an emitting block yields a non-empty result. |
| DocumentProperties.SingleBlock | script.js:20-23 | A text without `---` is a single block: it yields its recipe when the recipe has a title, and nothing otherwise. |
| DocumentProperties.BlankDocumentHasNoRecipes | script.js:20 | Empty or all-whitespace input yields no recipes. |
| DocumentProperties.BlocksParseIndependently | script.js:20-31 | Two parts joined by `---` parse independently, the section state starting afresh in each, when the left part does not end with `-`. |
| ParserLoops.ReadLine | script.js:33-48 | Rule precedence: the chain as written, where the list rules also test the section and fall through, has the same effect as classifying the trimmed line and applying its kind to the state. |
| ParserLoops.ScanLoop | script.js:31-49 | The line loop starts from an empty recipe and no section, and ends in exactly the state of the fold over the classified lines. |
| ParserLoops.ParseBlockLoop | script.js:23-49 | The block's title is the text after `# ` of its last trimmed line starting with `# `, and empty without one. Its date is the text from index 6 of its last trimmed line starting with `Дата:`, and empty without one. The recipe is the one the fold computes. |
| ParserLoops.ReadBlock | script.js:22-54 | The callback keeps at most one recipe, the block's own, always with a non-empty title. It keeps one exactly when some trimmed line of the block starts with `# `. |
| ParserLoops.KeepNonBlank | script.js:20 | The filter returns the non-blank blocks in their original order and with their repetitions: the kept blocks sit at increasing positions of the list, and those are the positions of exactly the non-blank blocks. What the kept blocks parse to is what all the blocks parse to. |
| ParserLoops.KeptIsContribution | script.js:51-53 | For a non-blank block, what the callback keeps is exactly the block's contribution in the functional model. |
| ParserLoops.ParseRecipesLoop | script.js:18-57 | Splitting, filtering and the loop over the blocks return exactly `ParseRecipes`, and every recipe in the result has a non-empty title. |

## Left out

- `loadRecipes` (fetching `recipes.md`), `createRecipeCard`, `showError`, `initThemeSwitcher` and `init` with its `DOMContentLoaded` listener are not part of this model. They are network I/O, DOM building and styling around the parser.
- Characters are modelled as code points, while JavaScript strings are UTF-16 code units. All markers lie in the Basic Multilingual Plane, so the only possible difference is `substring(6)` after `Дата:` cutting through a surrogate pair when the sixth character lies outside that plane.
- Whitespace for `trim` and `\s` is the enumerated ECMAScript WhiteSpace and LineTerminator set as of current Unicode. A future Unicode version that adds a space separator is not followed.
- `split` is modelled only for a non-empty separator. The parser only ever splits on the constants `---` and `\n`.
- RecipeParser.ParseRecipes: its contract bounds the count by all blocks, not by the non-blank blocks only. The exact count and order are stated by `DocumentProperties.DocumentRecipes`.
- The mutable recipe object and `currentSection` variable are modelled as immutable values passed through each step. No aliasing is observable, because the object is only reachable from the result list.
