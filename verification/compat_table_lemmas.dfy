/**
  Properties of the compatibility table: the last indicator that writes a
  column decides it, so a version's list is idempotent and order matters;
  a run changes only the rows it names; and every cell gets exactly one
  verdict that gives back its entry and its direction.
 */
module CompatTableLemmas {
  import opened Wrappers
  import opened CompatTable

  predicate AllFit(ops: seq<Op>, n: nat) {
    forall i :: 0 <= i < |ops| ==> Fits(ops[i], n)
  }

  /** Some op of `ops` writes column `c`. */
  predicate WritesAny(ops: seq<Op>, c: nat) {
    exists k :: 0 <= k < |ops| && Writes(ops[k], c)
  }

  /**
    Reference semantics of a list of ops on one column: the value written by
    the LAST op that writes column `c`, or `d` when none does.
   */
  function LastWrite(ops: seq<Op>, c: nat, d: bool): bool
    decreases |ops|
  {
    if |ops| == 0 then d
    else if Writes(ops[|ops| - 1], c) then Written(ops[|ops| - 1])
    else LastWrite(ops[..|ops| - 1], c, d)
  }

  /** Applying ops column by column agrees with the last-writer reference. */
  lemma {:induction false} LastWriterWins(row: Row, ops: seq<Op>, c: nat)
    requires AllFit(ops, |row|)
    requires c < |row|
    ensures ApplyOps(row, ops)[c] == LastWrite(ops, c, row[c])
    decreases |ops|
  {
    if |ops| > 0 {
      var init := ops[..|ops| - 1];
      assert AllFit(init, |row|) by {
        assert forall i :: 0 <= i < |init| ==> init[i] == ops[i];
      }
      LastWriterWins(row, init, c);
    }
  }

  /** A column no op writes keeps its value; a written one forgets where it started. */
  lemma {:induction false} LastWriteStart(ops: seq<Op>, c: nat, d: bool, e: bool)
    ensures !WritesAny(ops, c) ==> LastWrite(ops, c, d) == d
    ensures WritesAny(ops, c) ==> LastWrite(ops, c, d) == LastWrite(ops, c, e)
    decreases |ops|
  {
    if |ops| > 0 {
      var init := ops[..|ops| - 1];
      LastWriteStart(init, c, d, e);
      if !Writes(ops[|ops| - 1], c) {
        assert WritesAny(ops, c) ==> WritesAny(init, c) by {
          if WritesAny(ops, c) {
            var k :| 0 <= k < |ops| && Writes(ops[k], c);
            assert k < |init| && init[k] == ops[k];
          }
        }
        assert WritesAny(init, c) ==> WritesAny(ops, c) by {
          if WritesAny(init, c) {
            var k :| 0 <= k < |init| && Writes(init[k], c);
            assert ops[k] == init[k];
          }
        }
      } else {
        assert WritesAny(ops, c) by {
          assert Writes(ops[|ops| - 1], c);
        }
      }
    }
  }

  /** Applying a version's parsed list a second time changes nothing. */
  lemma ApplyOpsIdempotent(row: Row, ops: seq<Op>)
    requires AllFit(ops, |row|)
    ensures ApplyOps(ApplyOps(row, ops), ops) == ApplyOps(row, ops)
  {
    var once := ApplyOps(row, ops);
    var twice := ApplyOps(once, ops);
    forall c | 0 <= c < |row|
      ensures twice[c] == once[c]
    {
      LastWriterWins(row, ops, c);
      LastWriterWins(once, ops, c);
      LastWriteStart(ops, c, row[c], once[c]);
      LastWriteStart(ops, c, once[c], row[c]);
    }
  }

  /** The same at the level of indicator strings: a list applied twice equals the list applied once. */
  lemma ApplyListIdempotent(versions: seq<string>, row: Row, list: seq<string>)
    requires |row| == |versions|
    requires ApplyList(versions, row, list).Success?
    ensures ApplyList(versions, ApplyList(versions, row, list).value, list) == ApplyList(versions, row, list)
  {
    ApplyOpsIdempotent(row, ParseAll(versions, list).value);
  }

  /** Applying two lists one after the other is applying their concatenation. */
  lemma {:induction false} ApplyOpsConcat(row: Row, a: seq<Op>, b: seq<Op>)
    requires AllFit(a, |row|) && AllFit(b, |row|)
    ensures AllFit(a + b, |row|)
    ensures ApplyOps(row, a + b) == ApplyOps(ApplyOps(row, a), b)
    decreases |b|
  {
    assert forall i :: 0 <= i < |a + b| ==> (a + b)[i] == if i < |a| then a[i] else b[i - |a|];
    if |b| == 0 {
      assert a + b == a;
    } else {
      var init := b[..|b| - 1];
      assert AllFit(init, |row|) by {
        assert forall i :: 0 <= i < |init| ==> init[i] == b[i];
      }
      ApplyOpsConcat(row, a, init);
      assert (a + b)[..|a + b| - 1] == a + init;
      assert (a + b)[|a + b| - 1] == b[|b| - 1];
      calc {
        ApplyOps(row, a + b);
        ApplyOp(ApplyOps(row, a + init), b[|b| - 1]);
        ApplyOp(ApplyOps(ApplyOps(row, a), init), b[|b| - 1]);
        ApplyOps(ApplyOps(row, a), b);
      }
    }
  }

  /** Without a `+` indicator, a list can only clear entries, never set one. */
  lemma OnlyEnableSets(row: Row, ops: seq<Op>, c: nat)
    requires AllFit(ops, |row|)
    requires c < |row|
    requires forall i :: 0 <= i < |ops| ==> !ops[i].Enable?
    ensures ApplyOps(row, ops)[c] ==> row[c]
  {
    LastWriterWins(row, ops, c);
    NoEnableNeverTrue(ops, c, row[c]);
  }

  lemma {:induction false} NoEnableNeverTrue(ops: seq<Op>, c: nat, d: bool)
    requires forall i :: 0 <= i < |ops| ==> !ops[i].Enable?
    ensures LastWrite(ops, c, d) ==> d
    decreases |ops|
  {
    if |ops| > 0 {
      NoEnableNeverTrue(ops[..|ops| - 1], c, d);
    }
  }

  /** Rows whose position no item's version maps to are left as they were. */
  lemma {:induction false} UntouchedRowsKept(versions: seq<string>, t: Table, entries: seq<(string, seq<string>)>, i: nat)
    requires IsSquare(t, |versions|)
    requires i < |versions|
    requires forall e :: e in entries ==> IndexOf(versions, e.0) != Some(i)
    requires ApplyEntries(versions, t, entries).Success?
    ensures ApplyEntries(versions, t, entries).value[i] == t[i]
    decreases |entries|
  {
    if |entries| > 0 {
      var init := entries[..|entries| - 1];
      assert forall e :: e in init ==> e in entries;
      UntouchedRowsKept(versions, t, init, i);
    }
  }

  /** A later `+c` re-enables the column an earlier `>a` cleared. */
  lemma EnableAfterClearWins()
    ensures ApplyList(["a", "b", "c"], [true, true, true], [">a", "+c"]) == Success([true, false, true])
  {
    var vs := ["a", "b", "c"];
    var row := [true, true, true];
    ParseClearSample();
    ParseEnableSample();
    ParseTwo(vs, ">a", "+c");
    ApplyTwo(row, ClearAfter(0), Enable(2));
    assert ApplyOp(row, ClearAfter(0)) == [true, false, false];
    assert ApplyOp([true, false, false], Enable(2)) == [true, false, true];
  }

  /** A later `>a` clears the column an earlier `+c` enabled: the same two indicators, the other order. */
  lemma ClearAfterEnableWins()
    ensures ApplyList(["a", "b", "c"], [true, true, true], ["+c", ">a"]) == Success([true, false, false])
  {
    var vs := ["a", "b", "c"];
    var row := [true, true, true];
    ParseClearSample();
    ParseEnableSample();
    ParseTwo(vs, "+c", ">a");
    ApplyTwo(row, Enable(2), ClearAfter(0));
    assert ApplyOp(row, Enable(2)) == row;
    assert ApplyOp(row, ClearAfter(0)) == [true, false, false];
  }

  /** How `>a` parses against the versions a, b, c. */
  lemma ParseClearSample()
    ensures ParseIndicator(["a", "b", "c"], ">a") == Success(ClearAfter(0))
  {
    StripOfClean("a");
    assert ">a"[1..] == "a";
    assert IndexOf(["a", "b", "c"], "a") == Some(0);
  }

  /** How `+c` parses against the versions a, b, c. */
  lemma ParseEnableSample()
    ensures ParseIndicator(["a", "b", "c"], "+c") == Success(Enable(2))
  {
    StripOfClean("c");
    assert "+c"[1..] == "c";
    assert IndexOf(["a", "b", "c"], "c") == Some(2);
  }

  /** A two-indicator list parses to the two ops in order. */
  lemma ParseTwo(versions: seq<string>, s: string, t: string)
    ensures ParseIndicator(versions, s).Success? && ParseIndicator(versions, t).Success? ==>
              ParseAll(versions, [s, t]) == Success([ParseIndicator(versions, s).value, ParseIndicator(versions, t).value])
  {
    if ParseIndicator(versions, s).Failure? || ParseIndicator(versions, t).Failure? {
      return;
    }
    var l := [s, t];
    ParseOne(versions, s);
    assert l[..|l| - 1] == [s];
    assert l[|l| - 1] == t;
    var o1 := ParseIndicator(versions, s).value;
    var o2 := ParseIndicator(versions, t).value;
    assert [o1] + [o2] == [o1, o2];
  }

  /** Two ops applied as a list are applied one after the other. */
  lemma ApplyTwo(row: Row, o1: Op, o2: Op)
    requires Fits(o1, |row|) && Fits(o2, |row|)
    ensures ApplyOps(row, [o1, o2]) == ApplyOp(ApplyOp(row, o1), o2)
  {
    var ops := [o1, o2];
    assert ops[..|ops| - 1] == [o1];
    assert ops[|ops| - 1] == o2;
    assert [o1][..0] == [];
    assert ApplyOps(row, [o1][..0]) == row;
    assert ApplyOps(row, [o1]) == ApplyOp(row, o1);
  }

  /** A one-indicator list parses to that indicator's op. */
  lemma ParseOne(versions: seq<string>, s: string)
    requires ParseIndicator(versions, s).Success?
    ensures ParseAll(versions, [s]) == Success([ParseIndicator(versions, s).value])
  {
    var l := [s];
    assert l[..0] == [];
    assert l[|l| - 1] == s;
    assert ParseAll(versions, l[..|l| - 1]) == Success([]);
    var op := ParseIndicator(versions, s).value;
    assert [] + [op] == [op];
    assert ParseAll(versions, l) == Success([] + [op]);
  }

  /** A string with no surrounding whitespace is its own strip. */
  lemma StripOfClean(s: string)
    requires |s| > 0 ==> !IsSpace(s[0]) && !IsSpace(s[|s| - 1])
    ensures Strip(s) == s
  {
    var r := Strip(s);
    var i :| 0 <= i <= |s| - |r| && r == s[i..i + |r|] && AllSpace(s[..i]) && AllSpace(s[i + |r|..]);
  }

  /**
    A version can be marked as unable to read its own corpus: with versions
    a, b, the indicator `>a` in b's list clears b's own column.
   */
  lemma SelfIncompatibilityReachable()
    ensures var r := ApplyEntries(["a", "b"], [[true, true], [true, true]], [("b", [">a"])]);
            r.Success? && !r.value[1][1] && Classify(r.value[1][1], 1, 1) == NotSelfCompatible
  {
    var vs := ["a", "b"];
    StripOfClean("a");
    assert ">a"[1..] == "a";
    assert IndexOf(vs, "a") == Some(0);
    assert IndexOf(vs, "b") == Some(1);
    assert [">a"][..0] == [];
    assert ParseIndicator(vs, ">a") == Success(ClearAfter(0));
    ParseOne(vs, ">a");
    assert [ClearAfter(0)][..0] == [];
    assert ApplyOp([true, true], ClearAfter(0)) == [true, false];
    var es := [("b", [">a"])];
    assert es[..0] == [];
  }

  /** A verdict gives back exactly the cell's entry and the direction of the check. */
  lemma ClassifyDecodes(compatible: bool, i: nat, j: nat)
    ensures IsCompatible(Classify(compatible, i, j)) == compatible
    ensures VerdictDirection(Classify(compatible, i, j)) == DirectionOf(i, j)
  {
  }

  /** "not self-compatible" is printed exactly for a false entry on the diagonal. */
  lemma NotSelfCompatibleExactly(compatible: bool, i: nat, j: nat)
    ensures Classify(compatible, i, j) == NotSelfCompatible <==> !compatible && i == j
  {
  }
}
