/**
  The version-compatibility table of the upgrade/downgrade driver script: an
  n-by-n boolean table over the known versions, narrowed per version by its
  list of indicator strings, then read cell by cell as an upgrade, a
  downgrade or a self check.

  The script's lines 14-15 are joined into one line that does not parse
  (`]for` runs the row lookup into the loop header). This model follows the
  evident intent: look up the version's row, then loop over its indicators.
 */
module CompatTable {
  import opened Wrappers

  /** The exceptions that end the script. */
  datatype PyError =
    | IndexError            // `not_compat[0]` on an empty indicator
    | ValueError(name: string)  // `versions.index(name)` for a name not in the list

  type Row = seq<bool>
  type Table = seq<Row>

  predicate IsSquare(t: Table, n: nat) {
    |t| == n && forall i :: 0 <= i < n ==> |t[i]| == n
  }

  /**
    Line 7: `n` separate rows of `n` entries, all true. The comprehension
    builds a fresh list per row, so a row can later change alone.
   */
  method NewTable(n: nat) returns (t: Table)
    ensures IsSquare(t, n)
    ensures forall i, j :: 0 <= i < n && 0 <= j < n ==> t[i][j]
  {
    t := [];
    while |t| < n
      invariant |t| <= n
      invariant forall i :: 0 <= i < |t| ==> |t[i]| == n
      invariant forall i, j :: 0 <= i < |t| && 0 <= j < n ==> t[i][j]
    {
      var row: Row := [];
      while |row| < n
        invariant |row| <= n
        invariant forall j :: 0 <= j < |row| ==> row[j]
      {
        row := row + [true];
      }
      t := t + [row];
    }
  }

  // ---------------------------------------------------------------------------
  // Python's list.index and str.strip
  // ---------------------------------------------------------------------------

  /** `versions.index(name)`: the first position holding `name`, if any. */
  function IndexOf(versions: seq<string>, name: string): (r: Option<nat>)
    ensures r.None? <==> name !in versions
    ensures r.Some? ==> r.value < |versions| && versions[r.value] == name
                        && forall k :: 0 <= k < r.value ==> versions[k] != name
    decreases |versions|
  {
    if |versions| == 0 then None
    else if versions[0] == name then Some(0)
    else
      match IndexOf(versions[1..], name)
      case None => None
      case Some(k) => Some(k + 1)
  }

  /** Python's `str.isspace()` for one character. */
  predicate IsSpace(c: char) {
    || c == ' '
    || '\t' <= c <= '\r'
    || '\U{1c}' <= c <= '\U{1f}'
    || c == '\U{85}' || c == '\U{a0}' || c == '\U{1680}'
    || '\U{2000}' <= c <= '\U{200a}'
    || c == '\U{2028}' || c == '\U{2029}' || c == '\U{202f}' || c == '\U{205f}' || c == '\U{3000}'
  }

  predicate AllSpace(s: string) {
    forall i :: 0 <= i < |s| ==> IsSpace(s[i])
  }

  /** The number of whitespace characters `s` starts with. */
  function LeadingSpaces(s: string): (k: nat)
    ensures k <= |s|
    ensures forall i :: 0 <= i < k ==> IsSpace(s[i])
    ensures k < |s| ==> !IsSpace(s[k])
    decreases |s|
  {
    if |s| == 0 || !IsSpace(s[0]) then 0
    else 1 + LeadingSpaces(s[1..])
  }

  /** The number of whitespace characters `s` ends with. */
  function TrailingSpaces(s: string): (k: nat)
    ensures k <= |s|
    ensures forall i :: |s| - k <= i < |s| ==> IsSpace(s[i])
    ensures k < |s| ==> !IsSpace(s[|s| - k - 1])
    decreases |s|
  {
    if |s| == 0 || !IsSpace(s[|s| - 1]) then 0
    else 1 + TrailingSpaces(s[..|s| - 1])
  }

  /**
    `str.strip()`: `s` without its leading and trailing whitespace. The
    result is a slice of `s`, everything cut off is whitespace, and the
    result neither starts nor ends with whitespace.
   */
  function Strip(s: string): (r: string)
    ensures |r| <= |s|
    ensures exists i :: 0 <= i <= |s| - |r| && r == s[i..i + |r|] && AllSpace(s[..i]) && AllSpace(s[i + |r|..])
    ensures |r| > 0 ==> !IsSpace(r[0]) && !IsSpace(r[|r| - 1])
  {
    var i := LeadingSpaces(s);
    var j := if i == |s| then |s| else |s| - TrailingSpaces(s);
    assert i <= j;
    assert AllSpace(s[..i]) by {
      assert forall k :: 0 <= k < i ==> s[..i][k] == s[k];
    }
    assert AllSpace(s[j..]) by {
      assert forall k :: 0 <= k < |s| - j ==> s[j..][k] == s[j + k];
    }
    var r := s[i..j];
    assert r == s[i..i + |r|];
    assert |r| > 0 ==> r[0] == s[i] && r[|r| - 1] == s[j - 1];
    r
  }

  // ---------------------------------------------------------------------------
  // Indicators
  // ---------------------------------------------------------------------------

  /**
    A parsed indicator. `ClearAfter(k)` is `>v` (every column after `v`'s),
    `ClearBefore(k)` is `<v` (every column before `v`'s), `Enable(k)` is `+v`
    (`v`'s column alone), `Unknown` any other first character.
   */
  datatype Op =
    | ClearAfter(col: nat)
    | ClearBefore(col: nat)
    | Enable(col: nat)
    | Unknown(text: string)

  /** Whether `op` writes column `c`. */
  predicate Writes(op: Op, c: nat) {
    match op
    case ClearAfter(k) => c > k
    case ClearBefore(k) => c < k
    case Enable(k) => c == k
    case Unknown(_) => false
  }

  /** The value `op` writes to every column it writes. */
  function Written(op: Op): bool {
    op.Enable?
  }

  /** `op` names a column of a row of length `n`. */
  predicate Fits(op: Op, n: nat) {
    !op.Unknown? ==> op.col < n
  }

  /**
    Lines 16-28 for one indicator: read its first character (an empty
    indicator raises `IndexError`), then look up the stripped remainder
    among the versions (a missing one raises `ValueError`). Any other first
    character is reported and otherwise ignored.
   */
  function ParseIndicator(versions: seq<string>, s: string): (r: Result<Op, PyError>)
    ensures |s| == 0 ==> r == Failure(IndexError)
    ensures |s| > 0 && s[0] != '>' && s[0] != '<' && s[0] != '+' ==> r == Success(Unknown(s))
    ensures |s| > 0 && (s[0] == '>' || s[0] == '<' || s[0] == '+') ==>
              (r.Failure? <==> Strip(s[1..]) !in versions)
    ensures r.Failure? && |s| > 0 ==> r.error == ValueError(Strip(s[1..]))
    ensures r.Success? && !r.value.Unknown? ==>
              && r.value.col < |versions|
              && versions[r.value.col] == Strip(s[1..])
              && (forall k :: 0 <= k < r.value.col ==> versions[k] != Strip(s[1..]))
              && (r.value.ClearAfter? <==> s[0] == '>')
              && (r.value.ClearBefore? <==> s[0] == '<')
              && (r.value.Enable? <==> s[0] == '+')
  {
    if |s| == 0 then Failure(IndexError)
    else if s[0] != '>' && s[0] != '<' && s[0] != '+' then Success(Unknown(s))
    else
      var name := Strip(s[1..]);
      match IndexOf(versions, name)
      case None => Failure(ValueError(name))
      case Some(k) =>
        if s[0] == '>' then Success(ClearAfter(k))
        else if s[0] == '<' then Success(ClearBefore(k))
        else Success(Enable(k))
  }

  /**
    The effect of one parsed indicator on a row: every column `op` writes
    takes the written value, every other column keeps its value.
   */
  function ApplyOp(row: Row, op: Op): (r: Row)
    requires Fits(op, |row|)
    ensures |r| == |row|
    ensures forall c :: 0 <= c < |row| ==> r[c] == if Writes(op, c) then Written(op) else row[c]
  {
    match op
    case ClearAfter(k) => seq(|row|, c requires 0 <= c < |row| => if c > k then false else row[c])
    case ClearBefore(k) => seq(|row|, c requires 0 <= c < |row| => if c < k then false else row[c])
    case Enable(k) => row[k := true]
    case Unknown(_) => row
  }

  /** Every indicator of a list, parsed in order; the first failure wins. */
  function ParseAll(versions: seq<string>, list: seq<string>): (r: Result<seq<Op>, PyError>)
    ensures r.Success? ==> |r.value| == |list|
    ensures r.Success? ==> forall i :: 0 <= i < |list| ==> ParseIndicator(versions, list[i]) == Success(r.value[i])
    ensures r.Success? ==> forall i :: 0 <= i < |list| ==> Fits(r.value[i], |versions|)
    ensures r.Success? <==> forall i :: 0 <= i < |list| ==> ParseIndicator(versions, list[i]).Success?
    ensures r.Failure? ==> exists i :: 0 <= i < |list| && ParseIndicator(versions, list[i]).Failure?
                                       && r.error == ParseIndicator(versions, list[i]).error
                                       && forall k :: 0 <= k < i ==> ParseIndicator(versions, list[k]).Success?
    decreases |list|
  {
    if |list| == 0 then Success([])
    else
      var init := list[..|list| - 1];
      assert forall i :: 0 <= i < |init| ==> init[i] == list[i];
      match ParseAll(versions, init)
      case Failure(e) => Failure(e)
      case Success(front) =>
        match ParseIndicator(versions, list[|list| - 1])
        case Failure(e) => Failure(e)
        case Success(op) => Success(front + [op])
  }

  /** Parsed indicators, applied to a row one after the other. */
  function ApplyOps(row: Row, ops: seq<Op>): (r: Row)
    requires forall i :: 0 <= i < |ops| ==> Fits(ops[i], |row|)
    ensures |r| == |row|
    decreases |ops|
  {
    if |ops| == 0 then row
    else ApplyOp(ApplyOps(row, ops[..|ops| - 1]), ops[|ops| - 1])
  }

  /** The list of one version, as the functional reference: parse, then apply. */
  function ApplyList(versions: seq<string>, row: Row, list: seq<string>): (r: Result<Row, PyError>)
    requires |row| == |versions|
    ensures r.Success? <==> ParseAll(versions, list).Success?
    ensures r.Failure? ==> r.error == ParseAll(versions, list).error
    ensures r.Success? ==> |r.value| == |row|
  {
    var ops :- ParseAll(versions, list);
    Success(ApplyOps(row, ops))
  }

  /**
    One indicator applied to a row in place, with the loops of lines 18-19
    and 22-23. The outcome is the parsed indicator's effect, or the
    exception its parsing raises.
   */
  method ApplyIndicator(versions: seq<string>, row: Row, s: string) returns (res: Result<Row, PyError>)
    requires |row| == |versions|
    ensures res.Failure? <==> ParseIndicator(versions, s).Failure?
    ensures res.Failure? ==> res.error == ParseIndicator(versions, s).error
    ensures res.Success? ==> res.value == ApplyOp(row, ParseIndicator(versions, s).value)
  {
    if |s| == 0 {
      return Failure(IndexError);
    }
    var r := row;
    if s[0] == '>' {
      var name := Strip(s[1..]);
      var found := IndexOf(versions, name);
      if found.None? {
        return Failure(ValueError(name));
      }
      var until := found.value + 1;
      for i := until to |versions|
        invariant |r| == |row|
        invariant forall c :: 0 <= c < |r| ==> r[c] == if until <= c < i then false else row[c]
      {
        r := r[i := false];
      }
    } else if s[0] == '<' {
      var name := Strip(s[1..]);
      var found := IndexOf(versions, name);
      if found.None? {
        return Failure(ValueError(name));
      }
      var starting := found.value;
      for i := 0 to starting
        invariant |r| == |row|
        invariant forall c :: 0 <= c < |r| ==> r[c] == if c < i then false else row[c]
      {
        r := r[i := false];
      }
    } else if s[0] == '+' {
      var name := Strip(s[1..]);
      var found := IndexOf(versions, name);
      if found.None? {
        return Failure(ValueError(name));
      }
      r := r[found.value := true];
    }
    // any other first character: "unknown indicator" is printed and the row is left alone
    return Success(r);
  }

  /** Lines 15-28: one version's indicators, applied to its row in list order. */
  method ApplyIndicators(versions: seq<string>, row: Row, list: seq<string>) returns (res: Result<Row, PyError>)
    requires |row| == |versions|
    ensures res == ApplyList(versions, row, list)
  {
    var r := row;
    for i := 0 to |list|
      invariant ParseAll(versions, list[..i]).Success?
      invariant r == ApplyOps(row, ParseAll(versions, list[..i]).value)
    {
      var step := ApplyIndicator(versions, r, list[i]);
      ParseAllStep(versions, list, i);
      if step.Failure? {
        return Failure(step.error);
      }
      ApplyOpsSnoc(row, ParseAll(versions, list[..i]).value, ParseIndicator(versions, list[i]).value);
      r := step.value;
    }
    assert list[..|list|] == list;
    return Success(r);
  }

  /** Parsing one more indicator of a list extends the parsed prefix, or raises for the whole list. */
  lemma ParseAllStep(versions: seq<string>, list: seq<string>, i: nat)
    requires i < |list|
    requires ParseAll(versions, list[..i]).Success?
    ensures ParseIndicator(versions, list[i]).Success? ==>
              ParseAll(versions, list[..i + 1])
              == Success(ParseAll(versions, list[..i]).value + [ParseIndicator(versions, list[i]).value])
    ensures ParseIndicator(versions, list[i]).Failure? ==>
              ParseAll(versions, list).Failure? && ParseAll(versions, list).error == ParseIndicator(versions, list[i]).error
  {
    assert list[..i + 1][..i] == list[..i];
    assert list[..i + 1][i] == list[i];
    assert forall k :: 0 <= k < i ==> list[..i][k] == list[k];
  }

  /** Applying a list with one more op applies that op last. */
  lemma ApplyOpsSnoc(row: Row, ops: seq<Op>, op: Op)
    requires forall i :: 0 <= i < |ops| ==> Fits(ops[i], |row|)
    requires Fits(op, |row|)
    ensures ApplyOps(row, ops + [op]) == ApplyOp(ApplyOps(row, ops), op)
  {
    assert (ops + [op])[..|ops|] == ops;
  }

  // ---------------------------------------------------------------------------
  // The whole table
  // ---------------------------------------------------------------------------

  /** One (version, indicators) item of the input mapping, as the functional reference. */
  function ApplyEntry(versions: seq<string>, t: Table, version: string, list: seq<string>): (r: Result<Table, PyError>)
    requires IsSquare(t, |versions|)
    ensures version !in versions ==> r == Failure(ValueError(version))
    ensures r.Success? ==> IsSquare(r.value, |versions|)
  {
    match IndexOf(versions, version)
    case None => Failure(ValueError(version))
    case Some(k) =>
      var row :- ApplyList(versions, t[k], list);
      Success(t[k := row])
  }

  /** All items of the input mapping, in its order; the first exception ends the script. */
  function ApplyEntries(versions: seq<string>, t: Table, entries: seq<(string, seq<string>)>): (r: Result<Table, PyError>)
    requires IsSquare(t, |versions|)
    ensures r.Success? ==> IsSquare(r.value, |versions|)
    decreases |entries|
  {
    if |entries| == 0 then Success(t)
    else
      var before :- ApplyEntries(versions, t, entries[..|entries| - 1]);
      ApplyEntry(versions, before, entries[|entries| - 1].0, entries[|entries| - 1].1)
  }

  /**
    Lines 14-28 for one version: its row is found first (an unknown version
    raises `ValueError`), then narrowed by its indicators. Only that row
    changes.
   */
  method ApplyVersion(versions: seq<string>, table: Table, version: string, list: seq<string>)
    returns (res: Result<Table, PyError>)
    requires IsSquare(table, |versions|)
    ensures res == ApplyEntry(versions, table, version, list)
    ensures version !in versions ==> res == Failure(ValueError(version))
    ensures res.Success? ==> IsSquare(res.value, |versions|)
    ensures res.Success? ==> forall i :: 0 <= i < |versions| && versions[i] != version ==> res.value[i] == table[i]
    ensures res.Success? ==> forall i :: 0 <= i < |versions| && versions[i] == version
                                         && (forall k :: 0 <= k < i ==> versions[k] != version) ==>
                                         Success(res.value[i]) == ApplyList(versions, table[i], list)
  {
    var found := IndexOf(versions, version);
    if found.None? {
      return Failure(ValueError(version));
    }
    var row := table[found.value];
    var narrowed := ApplyIndicators(versions, row, list);
    if narrowed.Failure? {
      return Failure(narrowed.error);
    }
    res := Success(table[found.value := narrowed.value]);
  }

  /** Lines 13-28: every item of the input mapping in order. */
  method ApplyNotCompatible(versions: seq<string>, table: Table, entries: seq<(string, seq<string>)>)
    returns (res: Result<Table, PyError>)
    requires IsSquare(table, |versions|)
    ensures res == ApplyEntries(versions, table, entries)
  {
    var t := table;
    for i := 0 to |entries|
      invariant ApplyEntries(versions, table, entries[..i]) == Success(t)
    {
      assert entries[..i + 1][..i] == entries[..i];
      var step := ApplyVersion(versions, t, entries[i].0, entries[i].1);
      assert ApplyEntries(versions, table, entries[..i + 1]) == step;
      if step.Failure? {
        FailureIsFinal(versions, table, entries, i + 1);
        return step;
      }
      t := step.value;
    }
    assert entries[..|entries|] == entries;
    return Success(t);
  }

  /** Once a prefix of the items raises, the whole run raises the same exception. */
  lemma {:induction false} FailureIsFinal(versions: seq<string>, t: Table, entries: seq<(string, seq<string>)>, n: nat)
    requires IsSquare(t, |versions|)
    requires n <= |entries|
    requires ApplyEntries(versions, t, entries[..n]).Failure?
    ensures ApplyEntries(versions, t, entries) == ApplyEntries(versions, t, entries[..n])
    decreases |entries| - n
  {
    if n == |entries| {
      assert entries[..n] == entries;
    } else {
      var longer := entries[..n + 1];
      assert longer[..n] == entries[..n];
      assert ApplyEntries(versions, t, longer) == ApplyEntries(versions, t, entries[..n]);
      FailureIsFinal(versions, t, entries, n + 1);
    }
  }

  // ---------------------------------------------------------------------------
  // Classification (lines 30-47)
  // ---------------------------------------------------------------------------

  datatype Direction = Upgrade | Downgrade | Self

  /** Row `i` reads the corpus of column `j`: an upgrade when `j < i`, a downgrade when `i < j`. */
  function DirectionOf(i: nat, j: nat): (d: Direction)
    ensures d == Upgrade <==> j < i
    ensures d == Downgrade <==> i < j
    ensures d == Self <==> i == j
  {
    if j < i then Upgrade else if i < j then Downgrade else Self
  }

  /** The six kinds of line the script prints for a cell. */
  datatype Verdict =
    | CompatibleUpgrade
    | CompatibleDowngrade
    | ReadsOwnData
    | IncompatibleUpgrade
    | IncompatibleDowngrade
    | NotSelfCompatible

  /** The branches of lines 32-47 for cell (i, j) holding `compatible`. */
  function Classify(compatible: bool, i: nat, j: nat): Verdict {
    var isUpgrade := j < i;
    var isDowngrade := i < j;
    if compatible then
      if isUpgrade then CompatibleUpgrade
      else if isDowngrade then CompatibleDowngrade
      else ReadsOwnData
    else
      if isUpgrade then IncompatibleUpgrade
      else if isDowngrade then IncompatibleDowngrade
      else NotSelfCompatible
  }

  /** Whether a verdict says the versions are compatible. */
  predicate IsCompatible(v: Verdict) {
    v.CompatibleUpgrade? || v.CompatibleDowngrade? || v.ReadsOwnData?
  }

  /** The direction a verdict speaks about. */
  function VerdictDirection(v: Verdict): Direction {
    match v
    case CompatibleUpgrade | IncompatibleUpgrade => Upgrade
    case CompatibleDowngrade | IncompatibleDowngrade => Downgrade
    case ReadsOwnData | NotSelfCompatible => Self
  }

  /** Lines 30-47: the verdict of every cell, row by row. */
  method ClassifyTable(t: Table) returns (plan: seq<seq<Verdict>>)
    requires IsSquare(t, |t|)
    ensures |plan| == |t|
    ensures forall i :: 0 <= i < |t| ==> |plan[i]| == |t|
    ensures forall i, j :: 0 <= i < |t| && 0 <= j < |t| ==>
              IsCompatible(plan[i][j]) == t[i][j] && VerdictDirection(plan[i][j]) == DirectionOf(i, j)
  {
    plan := [];
    for i := 0 to |t|
      invariant |plan| == i
      invariant forall a :: 0 <= a < i ==> |plan[a]| == |t|
      invariant forall a, b :: 0 <= a < i && 0 <= b < |t| ==>
                  IsCompatible(plan[a][b]) == t[a][b] && VerdictDirection(plan[a][b]) == DirectionOf(a, b)
    {
      var line: seq<Verdict> := [];
      for j := 0 to |t|
        invariant |line| == j
        invariant forall b :: 0 <= b < j ==>
                    IsCompatible(line[b]) == t[i][b] && VerdictDirection(line[b]) == DirectionOf(i, b)
      {
        line := line + [Classify(t[i][j], i, j)];
      }
      plan := plan + [line];
    }
  }
}
