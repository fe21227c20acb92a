/**
 What `parseRecipes` returns for a whole document: exactly the recipes of
 the non-blank `---` blocks that received a title, in document order. Blank
 documents give nothing, and two parts joined by `---` parse independently.
 */
module DocumentProperties {
  import opened Strings
  import opened Splitting
  import opened Numbering
  import opened RecipeParser
  import opened BlockProperties

  /** The block makes it into the result: it is not blank and its recipe has a title. */
  predicate Emits(block: string)
  {
    Trim(block) != [] && ParseBlock(block).title != []
  }

  /** A blank block has no title, so the blank filter never drops a recipe
      that the title filter would keep. */
  lemma BlankBlockHasNoTitle(block: string)
    requires Trim(block) == []
    ensures ParseBlock(block).title == []
    ensures BlockRecipes(block) == []
  {
    assert !Contains([], LineSeparator);
    assert BlockLines(block) == [[]];
    assert Trim([]) == [];
    assert Classify([]) == OtherLine;
    assert ClassifyAll([[]]) == [OtherLine];
    assert [OtherLine][..0] == [];
  }

  /** A block contributes its recipe exactly when it emits. */
  lemma BlockRecipesIffEmits(block: string)
    ensures BlockRecipes(block) == if Emits(block) then [ParseBlock(block)] else []
    ensures Emits(block) <==> ParseBlock(block).title != []
  {
    if Trim(block) == [] {
      BlankBlockHasNoTitle(block);
    }
  }

  /** Some line of `lines`, once trimmed, starts with `marker`. */
  predicate HasMarkerLine(lines: seq<string>, marker: string)
  {
    exists j :: 0 <= j < |lines| && StartsWith(Trim(lines[j]), marker)
  }

  /** Line `j` is the last line of `lines` that, once trimmed, starts with `marker`. */
  predicate IsLastMarkerLine(lines: seq<string>, marker: string, j: nat)
  {
    && j < |lines|
    && StartsWith(Trim(lines[j]), marker)
    && forall i :: j < i < |lines| ==> !StartsWith(Trim(lines[i]), marker)
  }

  /** Last write wins for the title, stated over the block's lines: the
      title is the text after `"# "` of the last trimmed line that starts
      with `"# "`. */
  lemma LastTitleMarkerWins(block: string, j: nat)
    requires IsLastMarkerLine(BlockLines(block), TitleMarker, j)
    ensures ParseBlock(block).title == Drop(Trim(BlockLines(block)[j]), 2)
  {
    var lines := BlockLines(block);
    var kinds := ClassifyAll(lines);
    forall i | j < i < |kinds| ensures !kinds[i].TitleLine? {
      assert kinds[i] == Classify(lines[i]);
    }
    assert kinds[j] == Classify(lines[j]);
    TitleIsLastTitleLine(kinds, j);
  }

  /** A block none of whose trimmed lines starts with `"# "` has the empty title. */
  lemma NoTitleMarkerNoTitle(block: string)
    requires !HasMarkerLine(BlockLines(block), TitleMarker)
    ensures ParseBlock(block).title == []
  {
    var lines := BlockLines(block);
    var kinds := ClassifyAll(lines);
    forall i | 0 <= i < |kinds| ensures !kinds[i].TitleLine? {
      assert kinds[i] == Classify(lines[i]);
    }
    TitleEmptyWithoutTitleLine(kinds);
  }

  /** Last write wins for the date, stated over the block's lines: the date
      is the text from index 6 of the last trimmed line that starts with
      `"Дата:"`. */
  lemma LastDateMarkerWins(block: string, j: nat)
    requires IsLastMarkerLine(BlockLines(block), DateMarker, j)
    ensures ParseBlock(block).date == Drop(Trim(BlockLines(block)[j]), 6)
  {
    var lines := BlockLines(block);
    var kinds := ClassifyAll(lines);
    forall i | j < i < |kinds| ensures !kinds[i].DateLine? {
      assert kinds[i] == Classify(lines[i]);
    }
    assert kinds[j] == Classify(lines[j]);
    DateIsLastDateLine(kinds, j);
  }

  /** A block none of whose trimmed lines starts with `"Дата:"` has the empty date. */
  lemma NoDateMarkerNoDate(block: string)
    requires !HasMarkerLine(BlockLines(block), DateMarker)
    ensures ParseBlock(block).date == []
  {
    var lines := BlockLines(block);
    var kinds := ClassifyAll(lines);
    forall i | 0 <= i < |kinds| ensures !kinds[i].DateLine? {
      assert kinds[i] == Classify(lines[i]);
    }
    DateEmptyWithoutDateLine(kinds);
  }

  /** A block gets a title exactly when one of its lines, once trimmed,
      starts with `"# "`. */
  lemma TitledIffTitleMarker(block: string)
    ensures ParseBlock(block).title != [] <==> HasMarkerLine(BlockLines(block), TitleMarker)
  {
    var lines := BlockLines(block);
    var kinds := ClassifyAll(lines);
    forall i | 0 <= i < |kinds| && kinds[i].TitleLine? ensures kinds[i].title != [] {
      assert kinds[i] == Classify(lines[i]);
    }
    TitledIffTitleLine(kinds);
    if ParseBlock(block).title != [] {
      var j :| 0 <= j < |kinds| && kinds[j].TitleLine?;
      assert kinds[j] == Classify(lines[j]);
    } else {
      forall j | 0 <= j < |lines| ensures !StartsWith(Trim(lines[j]), TitleMarker) {
        assert kinds[j] == Classify(lines[j]);
      }
    }
  }

  /** The concatenation of `cs`, in order. */
  function Flatten<T>(cs: seq<seq<T>>): seq<T>
  {
    if |cs| == 0 then [] else Flatten(cs[..|cs| - 1]) + cs[|cs| - 1]
  }

  /** Concatenation distributes over appended lists of parts. */
  lemma {:induction false} FlattenAppend<T>(cs: seq<seq<T>>, ds: seq<seq<T>>)
    ensures Flatten(cs + ds) == Flatten(cs) + Flatten(ds)
    decreases |ds|
  {
    if |ds| == 0 {
      assert cs + ds == cs;
    } else {
      var m := ds[..|ds| - 1];
      assert (cs + ds)[..|cs + ds| - 1] == cs + m;
      FlattenAppend(cs, m);
    }
  }

  /** The blocks that are not blank after trimming, in order. */
  function NonBlank(blocks: seq<string>): seq<string>
  {
    if |blocks| == 0 then []
    else
      var last := blocks[|blocks| - 1];
      NonBlank(blocks[..|blocks| - 1]) + if Trim(last) != [] then [last] else []
  }

  /** The non-blank blocks are non-blank blocks of the list, and no more
      than the list holds. */
  lemma {:induction false} NonBlankKeepsOnlyNonBlank(blocks: seq<string>)
    ensures |NonBlank(blocks)| <= |blocks|
    ensures forall i :: 0 <= i < |NonBlank(blocks)| ==> Trim(NonBlank(blocks)[i]) != [] && NonBlank(blocks)[i] in blocks
  {
    if |blocks| > 0 {
      var n := |blocks| - 1;
      var prefix := blocks[..n];
      NonBlankKeepsOnlyNonBlank(prefix);
      var kept := NonBlank(blocks);
      var kept0 := NonBlank(prefix);
      forall i | 0 <= i < |kept| ensures Trim(kept[i]) != [] && kept[i] in blocks {
        if i < |kept0| {
          assert kept[i] == kept0[i];
          assert kept0[i] in prefix;
        }
      }
    }
  }

  /** Every non-blank block of the list is among the non-blank blocks. */
  lemma {:induction false} NonBlankKeepsAll(blocks: seq<string>)
    ensures forall j :: 0 <= j < |blocks| && Trim(blocks[j]) != [] ==> blocks[j] in NonBlank(blocks)
  {
    if |blocks| > 0 {
      var n := |blocks| - 1;
      var prefix := blocks[..n];
      NonBlankKeepsAll(prefix);
      var kept := NonBlank(blocks);
      var kept0 := NonBlank(prefix);
      forall j | 0 <= j < |blocks| && Trim(blocks[j]) != [] ensures blocks[j] in kept {
        if j < n {
          assert prefix[j] == blocks[j];
          assert blocks[j] in kept0;
        } else {
          assert kept[|kept| - 1] == blocks[j];
        }
      }
    }
  }

  /** The non-blank blocks are an in-order subsequence of the list: `idx`
      gives, in increasing order, the positions of exactly the blocks that
      are not blank, so order and repetitions are kept. */
  lemma {:induction false} NonBlankIsSubsequence(blocks: seq<string>) returns (idx: seq<nat>)
    ensures |idx| == |NonBlank(blocks)|
    ensures StrictlyIncreasing(idx)
    ensures forall i :: 0 <= i < |idx| ==>
      idx[i] < |blocks| && Trim(blocks[idx[i]]) != [] && NonBlank(blocks)[i] == blocks[idx[i]]
    ensures forall j :: 0 <= j < |blocks| && Trim(blocks[j]) != [] ==> j in idx
  {
    if |blocks| == 0 {
      idx := [];
    } else {
      var n := |blocks| - 1;
      var prefix := blocks[..n];
      var idx0 := NonBlankIsSubsequence(prefix);
      var kept0 := NonBlank(prefix);
      if Trim(blocks[n]) != [] {
        idx := idx0 + [n];
        assert NonBlank(blocks) == kept0 + [blocks[n]];
        assert StrictlyIncreasing(idx) by {
          forall a, b | 0 <= a < b < |idx| ensures idx[a] < idx[b] {
            assert idx[a] == idx0[a];
            if b < |idx0| {
              assert idx[b] == idx0[b];
            }
          }
        }
      } else {
        idx := idx0;
        assert NonBlank(blocks) == kept0;
      }
      forall i | 0 <= i < |idx|
        ensures idx[i] < |blocks| && Trim(blocks[idx[i]]) != [] && NonBlank(blocks)[i] == blocks[idx[i]]
      {
        if i < |idx0| {
          assert idx[i] == idx0[i] < n;
          assert prefix[idx0[i]] == blocks[idx0[i]];
          assert NonBlank(blocks)[i] == kept0[i];
        }
      }
      forall j | 0 <= j < |blocks| && Trim(blocks[j]) != [] ensures j in idx {
        if j < n {
          assert prefix[j] == blocks[j];
        }
      }
    }
  }

  /** Dropping the blank blocks changes nothing the blocks parse to, since a
      blank block has no title. */
  lemma {:induction false} NonBlankParsesAlike(blocks: seq<string>)
    ensures ParseBlocks(NonBlank(blocks)) == ParseBlocks(blocks)
  {
    if |blocks| > 0 {
      var n := |blocks| - 1;
      var last := blocks[n];
      var kept0 := NonBlank(blocks[..n]);
      NonBlankParsesAlike(blocks[..n]);
      if Trim(last) != [] {
        assert (kept0 + [last])[..|kept0|] == kept0;
      } else {
        BlankBlockHasNoTitle(last);
        assert kept0 + [] == kept0;
      }
    }
  }

  /** The ingredients of a block are exactly the texts after `"- "` of its
      trimmed lines that start with `"- "` and are read while the section is
      `Ingredients`, in line order. */
  lemma BlockIngredients(block: string) returns (idx: seq<nat>)
    ensures var lines := BlockLines(block);
      && |idx| == |ParseBlock(block).ingredients|
      && StrictlyIncreasing(idx)
      && (forall i :: 0 <= i < |idx| ==>
           && idx[i] < |lines|
           && StartsWith(Trim(lines[idx[i]]), BulletMarker)
           && Scan(ClassifyAll(lines)[..idx[i]]).section == Ingredients
           && ParseBlock(block).ingredients[i] == Drop(Trim(lines[idx[i]]), 2))
      && (forall j :: 0 <= j < |lines| ==>
           StartsWith(Trim(lines[j]), BulletMarker) && Scan(ClassifyAll(lines)[..j]).section == Ingredients ==> j in idx)
  {
    var lines := BlockLines(block);
    var kinds := ClassifyAll(lines);
    idx := IngredientsAreBulletLines(kinds);
    forall i | 0 <= i < |idx| ensures kinds[idx[i]] == Classify(lines[idx[i]]) {
      assert IsIngredientAt(kinds, idx[i]);
    }
    forall j | 0 <= j < |lines| && StartsWith(Trim(lines[j]), BulletMarker) &&
      Scan(kinds[..j]).section == Ingredients
      ensures j in idx
    {
      assert kinds[j] == Classify(lines[j]);
      assert IsIngredientAt(kinds, j);
    }
  }

  /** The instructions of a block are exactly its trimmed lines that match
      `^\d+\.` and are read while the section is `Instructions`, with the
      number prefix removed, in line order. */
  lemma BlockInstructions(block: string) returns (idx: seq<nat>)
    ensures var lines := BlockLines(block);
      && |idx| == |ParseBlock(block).instructions|
      && StrictlyIncreasing(idx)
      && (forall i :: 0 <= i < |idx| ==>
           && idx[i] < |lines|
           && IsNumbered(Trim(lines[idx[i]]))
           && Scan(ClassifyAll(lines)[..idx[i]]).section == Instructions
           && ParseBlock(block).instructions[i] == StripNumberPrefix(Trim(lines[idx[i]])))
      && (forall j :: 0 <= j < |lines| ==>
           IsNumbered(Trim(lines[j])) && Scan(ClassifyAll(lines)[..j]).section == Instructions ==> j in idx)
  {
    var lines := BlockLines(block);
    var kinds := ClassifyAll(lines);
    idx := InstructionsAreNumberedLines(kinds);
    forall i | 0 <= i < |idx| ensures kinds[idx[i]] == Classify(lines[idx[i]]) {
      assert IsInstructionAt(kinds, idx[i]);
    }
    forall j | 0 <= j < |lines| && IsNumbered(Trim(lines[j])) &&
      Scan(kinds[..j]).section == Instructions
      ensures j in idx
    {
      assert kinds[j] == Classify(lines[j]);
      assert IsInstructionAt(kinds, j);
    }
  }

  /** Parsing distributes over concatenated block lists. */
  lemma ParseBlocksAppend(xs: seq<string>, ys: seq<string>)
    ensures ParseBlocks(xs + ys) == ParseBlocks(xs) + ParseBlocks(ys)
  {
    ParseBlocksIsFlatten(xs + ys);
    ParseBlocksIsFlatten(xs);
    ParseBlocksIsFlatten(ys);
    ContributionsAppend(xs, ys);
    FlattenAppend(Contributions(xs), Contributions(ys));
  }

  /** The contributions of appended block lists are appended. */
  lemma ContributionsAppend(xs: seq<string>, ys: seq<string>)
    ensures Contributions(xs + ys) == Contributions(xs) + Contributions(ys)
  {
    var l := Contributions(xs + ys);
    var r := Contributions(xs) + Contributions(ys);
    forall j | 0 <= j < |l| ensures l[j] == r[j] {
      if j < |xs| {
        assert (xs + ys)[j] == xs[j];
      } else {
        assert (xs + ys)[j] == ys[j - |xs|];
      }
    }
  }

  /** When every part holds at most one element, the concatenation lists the
      elements of exactly the non-empty parts, in order: `idx` gives those
      parts' positions in increasing order. */
  lemma {:induction false} FlattenOfSingletons<T>(cs: seq<seq<T>>) returns (idx: seq<nat>)
    requires forall j :: 0 <= j < |cs| ==> |cs[j]| <= 1
    ensures |idx| == |Flatten(cs)|
    ensures StrictlyIncreasing(idx)
    ensures forall i :: 0 <= i < |idx| ==> idx[i] < |cs| && cs[idx[i]] == [Flatten(cs)[i]]
    ensures forall j :: 0 <= j < |cs| && cs[j] != [] ==> j in idx
  {
    if |cs| == 0 {
      idx := [];
    } else {
      var n := |cs| - 1;
      var prefix := cs[..n];
      var idx0 := FlattenOfSingletons(prefix);
      var f0 := Flatten(prefix);
      assert Flatten(cs) == f0 + cs[n];
      if cs[n] != [] {
        idx := idx0 + [n];
        assert StrictlyIncreasing(idx) by {
          forall a, b | 0 <= a < b < |idx| ensures idx[a] < idx[b] {
            assert idx[a] == idx0[a];
            if b < |idx0| {
              assert idx[b] == idx0[b];
            }
          }
        }
      } else {
        idx := idx0;
        assert Flatten(cs) == f0;
      }
      forall i | 0 <= i < |idx| ensures idx[i] < |cs| && cs[idx[i]] == [Flatten(cs)[i]] {
        if i < |idx0| {
          assert idx[i] == idx0[i] < n;
          assert cs[idx0[i]] == prefix[idx0[i]];
          assert Flatten(cs)[i] == f0[i];
        }
      }
      forall j | 0 <= j < |cs| && cs[j] != [] ensures j in idx {
        if j < n {
          assert prefix[j] == cs[j];
        }
      }
    }
  }

  /** Every part is a contiguous piece of the concatenation, so a non-empty
      part makes it non-empty. */
  lemma {:induction false} FlattenHasPart<T>(cs: seq<seq<T>>, j: nat)
    requires j < |cs|
    ensures |cs[j]| <= |Flatten(cs)|
  {
    var n := |cs| - 1;
    if j < n {
      FlattenHasPart(cs[..n], j);
    }
  }

  /** What each block contributes, block by block. */
  function Contributions(blocks: seq<string>): (cs: seq<seq<Recipe>>)
    ensures |cs| == |blocks|
    ensures forall j :: 0 <= j < |blocks| ==> cs[j] == BlockRecipes(blocks[j])
  {
    seq(|blocks|, j requires 0 <= j < |blocks| => BlockRecipes(blocks[j]))
  }

  /** The result is the concatenation of the blocks' contributions. */
  lemma {:induction false} ParseBlocksIsFlatten(blocks: seq<string>)
    ensures ParseBlocks(blocks) == Flatten(Contributions(blocks))
  {
    if |blocks| > 0 {
      var n := |blocks| - 1;
      ParseBlocksIsFlatten(blocks[..n]);
      assert Contributions(blocks)[..n] == Contributions(blocks[..n]);
    }
  }

  /** Order and count: the recipes are the recipes of exactly the emitting
      blocks, in block order; `idx` lists those blocks' positions in
      increasing order. */
  lemma RecipesAreEmittingBlocks(blocks: seq<string>) returns (idx: seq<nat>)
    ensures |idx| == |ParseBlocks(blocks)|
    ensures StrictlyIncreasing(idx)
    ensures forall i :: 0 <= i < |idx| ==>
      idx[i] < |blocks| && Emits(blocks[idx[i]]) && ParseBlocks(blocks)[i] == ParseBlock(blocks[idx[i]])
    ensures forall j :: 0 <= j < |blocks| && Emits(blocks[j]) ==> j in idx
  {
    var cs := Contributions(blocks);
    ParseBlocksIsFlatten(blocks);
    idx := FlattenOfSingletons(cs);
    forall i | 0 <= i < |idx|
      ensures idx[i] < |blocks| && Emits(blocks[idx[i]]) && ParseBlocks(blocks)[i] == ParseBlock(blocks[idx[i]])
    {
      BlockRecipesIffEmits(blocks[idx[i]]);
    }
    forall j | 0 <= j < |blocks| && Emits(blocks[j]) ensures j in idx {
      BlockRecipesIffEmits(blocks[j]);
    }
  }

  /** `parseRecipes` returns exactly the recipes of the emitting `---` blocks
      of the document, in document order. */
  lemma DocumentRecipes(markdown: string) returns (idx: seq<nat>)
    ensures var blocks := Split(markdown, BlockSeparator);
      && |idx| == |ParseRecipes(markdown)|
      && StrictlyIncreasing(idx)
      && (forall i :: 0 <= i < |idx| ==>
           idx[i] < |blocks| && Emits(blocks[idx[i]]) && ParseRecipes(markdown)[i] == ParseBlock(blocks[idx[i]]))
      && (forall j :: 0 <= j < |blocks| && Emits(blocks[j]) ==> j in idx)
  {
    idx := RecipesAreEmittingBlocks(Split(markdown, BlockSeparator));
  }

  /** A non-empty result comes from some emitting block of the document. */
  lemma SomeBlockEmits(markdown: string) returns (j: nat)
    requires ParseRecipes(markdown) != []
    ensures j < |Split(markdown, BlockSeparator)| && Emits(Split(markdown, BlockSeparator)[j])
  {
    var blocks := Split(markdown, BlockSeparator);
    var cs := Contributions(blocks);
    ParseBlocksIsFlatten(blocks);
    var idx := FlattenOfSingletons(cs);
    j := idx[0];
    BlockRecipesIffEmits(blocks[j]);
    assert cs[j] == BlockRecipes(blocks[j]);
  }

  /** An emitting block makes the result non-empty. */
  lemma EmittingBlockGivesRecipe(markdown: string, j: nat)
    requires j < |Split(markdown, BlockSeparator)| && Emits(Split(markdown, BlockSeparator)[j])
    ensures ParseRecipes(markdown) != []
  {
    var blocks := Split(markdown, BlockSeparator);
    var cs := Contributions(blocks);
    BlockRecipesIffEmits(blocks[j]);
    FlattenHasPart(cs, j);
    ParseBlocksIsFlatten(blocks);
  }

  /** A text without `---` is a single block. */
  lemma SingleBlock(block: string)
    requires !Contains(block, BlockSeparator)
    ensures ParseRecipes(block) == if ParseBlock(block).title != [] then [ParseBlock(block)] else []
  {
    BlockRecipesIffEmits(block);
    assert [block][..0] == [];
  }

  /** Empty or all-whitespace input yields no recipes. */
  lemma BlankDocumentHasNoRecipes(markdown: string)
    requires AllSpace(markdown)
    ensures ParseRecipes(markdown) == []
  {
    forall k: nat | k <= |markdown| ensures !OccursAt(markdown, BlockSeparator, k) {
      if k + |BlockSeparator| <= |markdown| {
        assert markdown[k + 0] != BlockSeparator[0];
      }
    }
    SingleBlock(markdown);
    BlankBlockHasNoTitle(markdown);
  }

  /** Two parts joined by `---` parse independently, the section state
      starting afresh in each: provided the left part does not end with `-`,
      which would make the separator found one character early. */
  lemma BlocksParseIndependently(a: string, b: string)
    requires a == [] || a[|a| - 1] != '-'
    ensures ParseRecipes(a + BlockSeparator + b) == ParseRecipes(a) + ParseRecipes(b)
  {
    assert NoStraddle(a, BlockSeparator) by {
      forall k | 0 < k < |BlockSeparator| && k <= |a| ensures !EndsWithPrefix(a, BlockSeparator, k) {
        assert a[|a| - k + (k - 1)] != BlockSeparator[k - 1];
      }
    }
    SplitAppend(a, BlockSeparator, b);
    ParseBlocksAppend(Split(a, BlockSeparator), Split(b, BlockSeparator));
  }
}
