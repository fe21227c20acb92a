/**
 What the line scan of one block computes, stated over the classified lines
 of the block: title and date keep the last line that sets them, the section
 in force is the last heading read, and each list holds exactly the list
 lines read while its section was in force, in order. `Classify` says what
 each kind means for the trimmed text of a line.
 */
module BlockProperties {
  import opened RecipeParser

  /** The kind is one of the two section headings. */
  predicate IsHeadingKind(k: LineKind)
  {
    k.IngredientsHeadingLine? || k.InstructionsHeadingLine?
  }

  /** The section a heading enters. */
  function HeadingSection(k: LineKind): Section
  {
    if k.IngredientsHeadingLine? then Ingredients else Instructions
  }

  /** Line `j` is appended to the ingredients: it is a bullet and the section
      in force when it is read is `Ingredients`. */
  predicate IsIngredientAt(kinds: seq<LineKind>, j: nat)
  {
    j < |kinds| && kinds[j].BulletLine? && Scan(kinds[..j]).section == Ingredients
  }

  /** Line `j` is appended to the instructions: it is numbered and the
      section in force when it is read is `Instructions`. */
  predicate IsInstructionAt(kinds: seq<LineKind>, j: nat)
  {
    j < |kinds| && kinds[j].NumberedLine? && Scan(kinds[..j]).section == Instructions
  }

  predicate StrictlyIncreasing(idx: seq<nat>)
  {
    forall a, b :: 0 <= a < b < |idx| ==> idx[a] < idx[b]
  }

  /** Each line touches one part of the state: the title and the date are
      overwritten only by their own lines, the section only by a heading, and
      each list grows by one entry exactly when a list line of its kind
      arrives while its section is in force. Title, date and heading lines
      never add to a list, and a line in the wrong section changes nothing. */
  lemma ApplyFields(st: ScanState, k: LineKind)
    ensures Apply(st, k).recipe.title == if k.TitleLine? then k.title else st.recipe.title
    ensures Apply(st, k).recipe.date == if k.DateLine? then k.date else st.recipe.date
    ensures Apply(st, k).section == if IsHeadingKind(k) then HeadingSection(k) else st.section
    ensures Apply(st, k).recipe.ingredients == st.recipe.ingredients +
      if k.BulletLine? && st.section == Ingredients then [k.item] else []
    ensures Apply(st, k).recipe.instructions == st.recipe.instructions +
      if k.NumberedLine? && st.section == Instructions then [k.step] else []
    ensures (k.OtherLine? || (k.BulletLine? && st.section != Ingredients) ||
             (k.NumberedLine? && st.section != Instructions)) ==> Apply(st, k) == st
  {
  }

  /** Last write wins for the title: it is the text of the last title line. */
  lemma {:induction false} TitleIsLastTitleLine(kinds: seq<LineKind>, j: nat)
    requires j < |kinds| && kinds[j].TitleLine?
    requires forall i :: j < i < |kinds| ==> !kinds[i].TitleLine?
    ensures Scan(kinds).recipe.title == kinds[j].title
  {
    var n := |kinds| - 1;
    if j < n {
      TitleIsLastTitleLine(kinds[..n], j);
    }
  }

  /** Without a title line the title stays empty. */
  lemma {:induction false} TitleEmptyWithoutTitleLine(kinds: seq<LineKind>)
    requires forall i :: 0 <= i < |kinds| ==> !kinds[i].TitleLine?
    ensures Scan(kinds).recipe.title == []
  {
    if |kinds| > 0 {
      TitleEmptyWithoutTitleLine(kinds[..|kinds| - 1]);
    }
  }

  /** When title lines always carry text (as classified lines do), the title
      ends up non-empty exactly when some line is a title line. */
  lemma {:induction false} TitledIffTitleLine(kinds: seq<LineKind>)
    requires forall i :: 0 <= i < |kinds| && kinds[i].TitleLine? ==> kinds[i].title != []
    ensures Scan(kinds).recipe.title != [] <==> exists j :: 0 <= j < |kinds| && kinds[j].TitleLine?
  {
    if |kinds| > 0 {
      var n := |kinds| - 1;
      var prefix := kinds[..n];
      TitledIffTitleLine(prefix);
      if !kinds[n].TitleLine? {
        if j :| 0 <= j < |kinds| && kinds[j].TitleLine? {
          assert prefix[j] == kinds[j];
        }
      }
    }
  }

  /** Last write wins for the date: it is the text of the last date line. */
  lemma {:induction false} DateIsLastDateLine(kinds: seq<LineKind>, j: nat)
    requires j < |kinds| && kinds[j].DateLine?
    requires forall i :: j < i < |kinds| ==> !kinds[i].DateLine?
    ensures Scan(kinds).recipe.date == kinds[j].date
  {
    var n := |kinds| - 1;
    if j < n {
      DateIsLastDateLine(kinds[..n], j);
    }
  }

  /** Without a date line the date stays empty. */
  lemma {:induction false} DateEmptyWithoutDateLine(kinds: seq<LineKind>)
    requires forall i :: 0 <= i < |kinds| ==> !kinds[i].DateLine?
    ensures Scan(kinds).recipe.date == []
  {
    if |kinds| > 0 {
      DateEmptyWithoutDateLine(kinds[..|kinds| - 1]);
    }
  }

  /** The section in force is the one entered by the last heading read. */
  lemma {:induction false} SectionIsLastHeading(kinds: seq<LineKind>, j: nat)
    requires j < |kinds| && IsHeadingKind(kinds[j])
    requires forall i :: j < i < |kinds| ==> !IsHeadingKind(kinds[i])
    ensures Scan(kinds).section == HeadingSection(kinds[j])
  {
    var n := |kinds| - 1;
    if j < n {
      SectionIsLastHeading(kinds[..n], j);
    }
  }

  /** Before any heading no section is in force: every block starts afresh. */
  lemma {:induction false} SectionNoneWithoutHeading(kinds: seq<LineKind>)
    requires forall i :: 0 <= i < |kinds| ==> !IsHeadingKind(kinds[i])
    ensures Scan(kinds).section == NoSection
  {
    if |kinds| > 0 {
      SectionNoneWithoutHeading(kinds[..|kinds| - 1]);
    }
  }

  /** Whether line `j` is appended to the ingredients depends only on the
      lines up to it, not on what follows. */
  lemma EntryAtPrefix(kinds: seq<LineKind>, n: nat, j: nat)
    requires j < n <= |kinds|
    ensures IsIngredientAt(kinds, j) == IsIngredientAt(kinds[..n], j)
    ensures IsInstructionAt(kinds, j) == IsInstructionAt(kinds[..n], j)
  {
    assert kinds[..n][..j] == kinds[..j];
  }

  /** The ingredients are exactly the bullet items read while the section
      was `Ingredients`, in the order of their lines: `idx` lists those
      lines' positions in increasing order. Re-entering the section
      never clears the list. */
  lemma {:induction false} IngredientsAreBulletLines(kinds: seq<LineKind>) returns (idx: seq<nat>)
    ensures |idx| == |Scan(kinds).recipe.ingredients|
    ensures StrictlyIncreasing(idx)
    ensures forall i :: 0 <= i < |idx| ==>
      IsIngredientAt(kinds, idx[i]) && Scan(kinds).recipe.ingredients[i] == kinds[idx[i]].item
    ensures forall j: nat :: IsIngredientAt(kinds, j) ==> j in idx
  {
    if |kinds| == 0 {
      idx := [];
    } else {
      var n := |kinds| - 1;
      var prefix := kinds[..n];
      var idx0 := IngredientsAreBulletLines(prefix);
      forall j: nat | j < n ensures IsIngredientAt(kinds, j) == IsIngredientAt(prefix, j) {
        EntryAtPrefix(kinds, n, j);
      }
      forall i | 0 <= i < |idx0| ensures idx0[i] < n {
        assert IsIngredientAt(prefix, idx0[i]);
      }
      if IsIngredientAt(kinds, n) {
        idx := idx0 + [n];
        assert StrictlyIncreasing(idx) by {
          forall a, b | 0 <= a < b < |idx| ensures idx[a] < idx[b] {
            assert idx[a] == idx0[a];
            if b < |idx0| {
              assert idx[b] == idx0[b];
            }
          }
        }
      } else {
        idx := idx0;
      }
    }
  }

  /** The instructions are exactly the numbered steps read while the
      section was `Instructions`, in the order of their lines. */
  lemma {:induction false} InstructionsAreNumberedLines(kinds: seq<LineKind>) returns (idx: seq<nat>)
    ensures |idx| == |Scan(kinds).recipe.instructions|
    ensures StrictlyIncreasing(idx)
    ensures forall i :: 0 <= i < |idx| ==>
      IsInstructionAt(kinds, idx[i]) && Scan(kinds).recipe.instructions[i] == kinds[idx[i]].step
    ensures forall j: nat :: IsInstructionAt(kinds, j) ==> j in idx
  {
    if |kinds| == 0 {
      idx := [];
    } else {
      var n := |kinds| - 1;
      var prefix := kinds[..n];
      var idx0 := InstructionsAreNumberedLines(prefix);
      forall j: nat | j < n ensures IsInstructionAt(kinds, j) == IsInstructionAt(prefix, j) {
        EntryAtPrefix(kinds, n, j);
      }
      forall i | 0 <= i < |idx0| ensures idx0[i] < n {
        assert IsInstructionAt(prefix, idx0[i]);
      }
      if IsInstructionAt(kinds, n) {
        idx := idx0 + [n];
        assert StrictlyIncreasing(idx) by {
          forall a, b | 0 <= a < b < |idx| ensures idx[a] < idx[b] {
            assert idx[a] == idx0[a];
            if b < |idx0| {
              assert idx[b] == idx0[b];
            }
          }
        }
      } else {
        idx := idx0;
      }
    }
  }

  /** A block without headings has empty lists: bullet and numbered lines
      read before any heading are ignored. */
  lemma {:induction false} NoHeadingNoEntries(kinds: seq<LineKind>)
    requires forall i :: 0 <= i < |kinds| ==> !IsHeadingKind(kinds[i])
    ensures Scan(kinds).recipe.ingredients == []
    ensures Scan(kinds).recipe.instructions == []
  {
    if |kinds| > 0 {
      var n := |kinds| - 1;
      NoHeadingNoEntries(kinds[..n]);
      SectionNoneWithoutHeading(kinds[..n]);
    }
  }

  /** Reading more lines only appends to the lists: what is in them is never
      removed or changed. */
  lemma {:induction false} ListsOnlyGrow(kinds: seq<LineKind>, more: seq<LineKind>)
    ensures Scan(kinds).recipe.ingredients <= Scan(kinds + more).recipe.ingredients
    ensures Scan(kinds).recipe.instructions <= Scan(kinds + more).recipe.instructions
    decreases |more|
  {
    if |more| == 0 {
      assert kinds + more == kinds;
    } else {
      var all := kinds + more;
      var m := more[..|more| - 1];
      assert all[..|all| - 1] == kinds + m;
      ListsOnlyGrow(kinds, m);
    }
  }
}
