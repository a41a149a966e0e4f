/**
 Change-point scan of the tire test rig recording (libraries/tire_sim/tires.py).

 A controlled channel (camber, normal force, pressure) is scanned in index
 order against a running reference reading, seeded with the first reading.
 Whenever a reading deviates from the reference by strictly more than the
 channel's tolerance, its index is recorded and the reference moves to it.

 Readings are exact reals; the recorded indices are returned as a sequence.
 */
module Tires {

  // ---------------------------------------------------------------------------
  // Results
  // ---------------------------------------------------------------------------

  datatype Option<+T> = None | Some(value: T)

  /** The two ways the scan fails: no first reading to seed the reference with,
      or a key the tolerance table does not hold. */
  datatype ScanError = EmptyColumn | UnknownKey(key: string)

  datatype Result<+T> = Ok(value: T) | Err(error: ScanError)

  // ---------------------------------------------------------------------------
  // Channels and the tolerance table
  // ---------------------------------------------------------------------------

  /** The three controlled channels that have an entry in the tolerance table. */
  datatype Channel = Camber | NormalForce | Pressure

  /** The key under which a channel appears in the tolerance table. */
  function Name(c: Channel): string
  {
    match c
    case Camber => "camber"
    case NormalForce => "normal_force"
    case Pressure => "pressure"
  }

  /** Looks a table key up; any other key is not in the table. */
  function ParseChannel(key: string): (r: Option<Channel>)
    ensures r.Some? <==> key in {"camber", "normal_force", "pressure"}
    ensures r.Some? ==> Name(r.value) == key
  {
    if key == "camber" then Some(Camber)
    else if key == "normal_force" then Some(NormalForce)
    else if key == "pressure" then Some(Pressure)
    else None
  }

  /** The largest deviation from the reference that is still treated as noise. */
  function Tolerance(c: Channel): (t: real)
    ensures t > 0.0
  {
    match c
    case Camber => 0.5
    case NormalForce => 200.0
    case Pressure => 25.0
  }

  lemma ParseName(c: Channel)
    ensures ParseChannel(Name(c)) == Some(c)
  {
  }

  // ---------------------------------------------------------------------------
  // Reference semantics: a left fold over the readings
  // ---------------------------------------------------------------------------

  function Abs(x: real): real
  {
    if x < 0.0 then -x else x
  }

  /** A reading is a change point exactly when it is strictly further than the
      tolerance from the current reference. */
  predicate Exceeds(reading: real, reference: real, tol: real)
  {
    Abs(reading - reference) > tol
  }

  /** State of the scan: indices recorded so far and the current reference. */
  datatype Scan = Scan(found: seq<nat>, reference: real)

  /** The state of the scan after the first n readings have been visited. */
  function ScanUpTo(data: seq<real>, tol: real, n: nat): (s: Scan)
    requires 0 < |data| && n <= |data|
    ensures forall k :: 0 <= k < |s.found| ==> s.found[k] < n
    decreases n
  {
    if n == 0 then Scan([], data[0])
    else
      var prev := ScanUpTo(data, tol, n - 1);
      if Exceeds(data[n - 1], prev.reference, tol) then Scan(prev.found + [n - 1], data[n - 1])
      else prev
  }

  /** The change points of a whole column. */
  function ChangePoints(data: seq<real>, tol: real): (r: seq<nat>)
    requires 0 < |data|
    ensures forall k :: 0 <= k < |r| ==> r[k] < |data|
  {
    ScanUpTo(data, tol, |data|).found
  }

  // ---------------------------------------------------------------------------
  // An independent description of the change-point list
  // ---------------------------------------------------------------------------

  predicate StrictlyIncreasing(r: seq<nat>)
  {
    forall j, k :: 0 <= j < k < |r| ==> r[j] < r[k]
  }

  /** The entries of r below n: for an increasing r, the prefix of it that
      ends at its last entry below n. */
  function TakeBelow(r: seq<nat>, n: nat): (p: seq<nat>)
    ensures p <= r
    ensures p == [] || p[|p| - 1] < n
  {
    if r == [] then []
    else if r[|r| - 1] < n then r
    else TakeBelow(r[..|r| - 1], n)
  }

  /** The reference in force when index i is visited, given the list r of
      recorded indices: the reading at the last recorded index before i, or
      the first reading when none was recorded before i. */
  function RefAt(data: seq<real>, r: seq<nat>, i: nat): real
    requires 0 < |data|
    requires forall k :: 0 <= k < |r| ==> r[k] < |data|
  {
    var p := TakeBelow(r, i);
    if p == [] then data[0] else data[p[|p| - 1]]
  }

  /** r lists, in increasing order, exactly the indices whose reading is
      strictly further than tol from the reference in force there. */
  predicate IsChangePointList(data: seq<real>, tol: real, r: seq<nat>)
    requires 0 < |data|
  {
    && (forall k :: 0 <= k < |r| ==> 0 < r[k] < |data|)
    && StrictlyIncreasing(r)
    && forall i {:trigger RefAt(data, r, i)} :: 0 <= i < |data| ==> (i in r <==> Exceeds(data[i], RefAt(data, r, i), tol))
  }

  /** The description read at one index: i is listed exactly when reading i is
      strictly further than tol from the reference in force at i. */
  lemma ChangePointAt(data: seq<real>, tol: real, r: seq<nat>, i: nat)
    requires 0 < |data| && i < |data|
    requires IsChangePointList(data, tol, r)
    ensures i in r <==> Exceeds(data[i], RefAt(data, r, i), tol)
  {
  }

  // ---------------------------------------------------------------------------
  // The scan as the source runs it
  // ---------------------------------------------------------------------------

  /** Scans one channel's column and returns the indices where the reading
      moved by more than the channel's tolerance from the running reference.
      The column is only read. An empty column has no first reading to seed
      the reference with; a key outside the tolerance table fails its lookup,
      which the source first performs while visiting index 0, before anything
      else is observable. */
  method FindIndices(dataColumn: array<real>, key: string) returns (r: Result<seq<nat>>)
    ensures dataColumn.Length == 0 ==> r == Err(EmptyColumn)
    ensures 0 < dataColumn.Length && ParseChannel(key).None? ==> r == Err(UnknownKey(key))
    ensures 0 < dataColumn.Length && ParseChannel(key).Some? ==>
      && r == Ok(ChangePoints(dataColumn[..], Tolerance(ParseChannel(key).value)))
      && IsChangePointList(dataColumn[..], Tolerance(ParseChannel(key).value), r.value)
      && |r.value| < dataColumn.Length
  {
    if dataColumn.Length == 0 {
      return Err(EmptyColumn);
    }
    var currVal := dataColumn[0];
    var channel := ParseChannel(key);
    if channel.None? {
      return Err(UnknownKey(key));
    }
    var tol := Tolerance(channel.value);
    var unique: seq<nat> := [];
    for i := 0 to dataColumn.Length
      invariant Scan(unique, currVal) == ScanUpTo(dataColumn[..], tol, i)
    {
      if Abs(dataColumn[i] - currVal) > tol {
        unique := unique + [i];
        currVal := dataColumn[i];
      }
    }
    ChangePointsCharacterised(dataColumn[..], tol);
    ChangePointCount(dataColumn[..], tol);
    return Ok(unique);
  }

  // ---------------------------------------------------------------------------
  // Properties of the fold
  // ---------------------------------------------------------------------------

  /** With a non-negative tolerance, index 0 is never recorded, the recorded
      indices increase strictly, and after n > 0 readings at most n - 1 of
      them are recorded. */
  lemma {:induction false} FoundShape(data: seq<real>, tol: real, n: nat)
    requires 0 < |data| && n <= |data| && 0.0 <= tol
    ensures var s := ScanUpTo(data, tol, n);
      && StrictlyIncreasing(s.found)
      && (forall k :: 0 <= k < |s.found| ==> 0 < s.found[k])
      && (0 < n ==> |s.found| <= n - 1)
  {
    if n > 0 {
      FoundShape(data, tol, n - 1);
      if n == 1 {
        assert ScanUpTo(data, tol, 0).reference == data[0];
        assert !Exceeds(data[0], data[0], tol);
      }
    }
  }

  /** The reference after n readings is the reading at the last recorded
      index, or the first reading when nothing has been recorded yet. */
  lemma {:induction false} ReferenceIsLastFound(data: seq<real>, tol: real, n: nat)
    requires 0 < |data| && n <= |data|
    ensures var s := ScanUpTo(data, tol, n);
      s.reference == if s.found == [] then data[0] else data[s.found[|s.found| - 1]]
  {
    if n > 0 {
      ReferenceIsLastFound(data, tol, n - 1);
    }
  }

  /** Visiting more readings only appends indices, each at least m. */
  lemma {:induction false} ScanExtends(data: seq<real>, tol: real, m: nat, n: nat)
    requires 0 < |data| && m <= n <= |data|
    ensures var early, late := ScanUpTo(data, tol, m).found, ScanUpTo(data, tol, n).found;
      && early <= late
      && forall k :: |early| <= k < |late| ==> m <= late[k]
  {
    if m < n {
      ScanExtends(data, tol, m, n - 1);
    }
  }

  /** Splitting a list into entries below n and entries from n on. */
  lemma {:induction false} TakeBelowSplit(p: seq<nat>, q: seq<nat>, n: nat)
    requires forall k :: 0 <= k < |p| ==> p[k] < n
    requires forall k :: 0 <= k < |q| ==> n <= q[k]
    ensures TakeBelow(p + q, n) == p
  {
    if q != [] {
      assert (p + q)[..|p + q| - 1] == p + q[..|q| - 1];
      TakeBelowSplit(p, q[..|q| - 1], n);
    }
  }

  /** In an increasing list, TakeBelow keeps exactly the entries below n. */
  lemma {:induction false} TakeBelowIncreasing(r: seq<nat>, n: nat)
    requires StrictlyIncreasing(r)
    ensures var p := TakeBelow(r, n);
      && (forall k :: 0 <= k < |p| ==> p[k] < n)
      && (forall k :: |p| <= k < |r| ==> n <= r[k])
  {
    if r != [] && n <= r[|r| - 1] {
      TakeBelowIncreasing(r[..|r| - 1], n);
    }
  }

  /** The reference the independent description assigns to index i is the
      one the scan holds when it reaches i. */
  lemma {:induction false} RefAtIsScanReference(data: seq<real>, tol: real, i: nat)
    requires 0 < |data| && i <= |data|
    ensures RefAt(data, ChangePoints(data, tol), i) == ScanUpTo(data, tol, i).reference
  {
    var r := ChangePoints(data, tol);
    var before := ScanUpTo(data, tol, i).found;
    ScanExtends(data, tol, i, |data|);
    assert r == before + r[|before|..];
    TakeBelowSplit(before, r[|before|..], i);
    ReferenceIsLastFound(data, tol, i);
  }

  /** Index i is a change point exactly when the scan records it on visiting
      reading i. */
  lemma {:induction false} RecordedWhenVisited(data: seq<real>, tol: real, i: nat)
    requires 0 < |data| && i < |data|
    ensures i in ChangePoints(data, tol) <==> Exceeds(data[i], ScanUpTo(data, tol, i).reference, tol)
  {
    var r := ChangePoints(data, tol);
    var upTo := ScanUpTo(data, tol, i + 1).found;
    ScanExtends(data, tol, i + 1, |data|);
    assert r == upTo + r[|upTo|..];
    if i in r {
      var j :| 0 <= j < |r| && r[j] == i;
      assert j < |upTo|;
    }
  }

  /** The change points of a column are exactly the indices whose reading is
      strictly further than the tolerance from the reference in force there:
      the reading at the last earlier change point, or the first reading. */
  lemma {:induction false} ChangePointsCharacterised(data: seq<real>, tol: real)
    requires 0 < |data| && 0.0 <= tol
    ensures IsChangePointList(data, tol, ChangePoints(data, tol))
  {
    var r := ChangePoints(data, tol);
    FoundShape(data, tol, |data|);
    forall i | 0 <= i < |data|
      ensures i in r <==> Exceeds(data[i], RefAt(data, r, i), tol)
    {
      RefAtIsScanReference(data, tol, i);
      RecordedWhenVisited(data, tol, i);
    }
  }

  /** The description is complete: it determines the change-point list. */
  lemma {:induction false} ChangePointsUnique(data: seq<real>, tol: real, r: seq<nat>)
    requires 0 < |data|
    requires IsChangePointList(data, tol, r)
    ensures r == ChangePoints(data, tol)
  {
    AgreeBelow(data, tol, r, |data|);
    TakeBelowSplit(r, [], |data|);
    assert r + [] == r;
  }

  /** In an increasing list, the entries below m + 1 are those below m,
      followed by m when m is an entry. */
  lemma {:induction false} TakeBelowStep(r: seq<nat>, m: nat)
    requires StrictlyIncreasing(r)
    ensures TakeBelow(r, m + 1) == TakeBelow(r, m) + (if m in r then [m] else [])
  {
    var p := TakeBelow(r, m);
    TakeBelowIncreasing(r, m);
    if m in r {
      var j :| 0 <= j < |r| && r[j] == m;
      assert r[|p|] == m;
      TakeBelowPastEntry(r, p, m);
    } else {
      TakeBelowPastGap(r, p, m);
    }
  }

  lemma {:induction false} TakeBelowPastEntry(r: seq<nat>, p: seq<nat>, m: nat)
    requires StrictlyIncreasing(r) && p <= r && |p| < |r| && r[|p|] == m
    requires forall k :: 0 <= k < |p| ==> p[k] < m
    ensures TakeBelow(r, m + 1) == p + [m]
  {
    var rest := r[|p| + 1..];
    forall k | 0 <= k < |rest| ensures m + 1 <= rest[k] {
      assert rest[k] == r[|p| + 1 + k];
    }
    assert r == (p + [m]) + rest;
    TakeBelowSplit(p + [m], rest, m + 1);
  }

  lemma {:induction false} TakeBelowPastGap(r: seq<nat>, p: seq<nat>, m: nat)
    requires p <= r && m !in r
    requires forall k :: |p| <= k < |r| ==> m <= r[k]
    requires forall k :: 0 <= k < |p| ==> p[k] < m
    ensures TakeBelow(r, m + 1) == p
  {
    var rest := r[|p|..];
    forall k | 0 <= k < |rest| ensures m + 1 <= rest[k] {
      assert rest[k] == r[|p| + k];
    }
    assert r == p + rest;
    TakeBelowSplit(p, rest, m + 1);
  }

  /** The entries of r below n are the indices the scan records among the
      first n readings. */
  lemma {:induction false} AgreeBelow(data: seq<real>, tol: real, r: seq<nat>, n: nat)
    requires 0 < |data| && n <= |data|
    requires IsChangePointList(data, tol, r)
    ensures TakeBelow(r, n) == ScanUpTo(data, tol, n).found
  {
    if n == 0 {
      TakeBelowSplit([], r, 0);
      assert [] + r == r;
    } else {
      var m := n - 1;
      AgreeBelow(data, tol, r, m);
      assert m in r <==> Exceeds(data[m], RefAt(data, r, m), tol);
      AgreeStep(data, tol, r, m);
    }
  }

  /** One step of AgreeBelow: if r and the scan agree below m and r marks m
      exactly when it exceeds the reference, they agree below m + 1. */
  lemma {:induction false} AgreeStep(data: seq<real>, tol: real, r: seq<nat>, m: nat)
    requires m < |data|
    requires forall k :: 0 <= k < |r| ==> r[k] < |data|
    requires StrictlyIncreasing(r)
    requires m in r <==> Exceeds(data[m], RefAt(data, r, m), tol)
    requires TakeBelow(r, m) == ScanUpTo(data, tol, m).found
    ensures TakeBelow(r, m + 1) == ScanUpTo(data, tol, m + 1).found
  {
    ReferenceIsLastFound(data, tol, m);
    TakeBelowStep(r, m);
  }

  /** A column has fewer change points than readings. */
  lemma {:induction false} ChangePointCount(data: seq<real>, tol: real)
    requires 0 < |data| && 0.0 <= tol
    ensures |ChangePoints(data, tol)| < |data|
  {
    FoundShape(data, tol, |data|);
  }

  /** No reading is ever recorded while the first n readings stay within the
      tolerance of the first one: the reference never moves. */
  lemma {:induction false} QuietPrefix(data: seq<real>, tol: real, n: nat)
    requires 0 < |data| && n <= |data|
    requires forall i :: 0 <= i < n ==> Abs(data[i] - data[0]) <= tol
    ensures ScanUpTo(data, tol, n) == Scan([], data[0])
  {
    if n > 0 {
      QuietPrefix(data, tol, n - 1);
    }
  }

  /** A column whose readings all lie within the tolerance of the first one
      has no change points. */
  lemma {:induction false} WithinToleranceNoChange(data: seq<real>, tol: real)
    requires 0 < |data|
    requires forall i :: 0 <= i < |data| ==> Abs(data[i] - data[0]) <= tol
    ensures ChangePoints(data, tol) == []
  {
    QuietPrefix(data, tol, |data|);
  }

  // ---------------------------------------------------------------------------
  // Concrete columns
  // ---------------------------------------------------------------------------

  /** A camber deviation of exactly the tolerance is not a change; a larger
      one is. */
  lemma AtToleranceNotReported()
    ensures ChangePoints([0.0, 0.5], Tolerance(Camber)) == []
    ensures ChangePoints([0.0, 0.75], Tolerance(Camber)) == [1]
  {
    assert ScanUpTo([0.0, 0.5], 0.5, 1) == Scan([], 0.0);
    assert ScanUpTo([0.0, 0.75], 0.5, 1) == Scan([], 0.0);
  }

  /** A normal-force step from -1600 to -1200 half-way through the column is
      one change point, at the first reading after the step. */
  lemma NormalForceStep()
    ensures var column := seq(10, i => if i < 5 then -1600.0 else -1200.0);
      ChangePoints(column, Tolerance(NormalForce)) == [5]
  {
  }

  /** Raising the tolerance can raise the number of change points: with the
      larger tolerance the reference stays put at a reading from which later
      readings keep straying, so a count that grows with the tolerance is not
      a property of the running-reference scan. */
  lemma ToleranceNotMonotone()
    ensures var column := [0.0, 3.0, 5.0, 1.0, 5.0];
      && ChangePoints(column, 2.5) == [1]
      && ChangePoints(column, 3.5) == [2, 3, 4]
  {
    var column := [0.0, 3.0, 5.0, 1.0, 5.0];
    assert ScanUpTo(column, 2.5, 2) == Scan([1], 3.0);
    assert ScanUpTo(column, 2.5, 4) == Scan([1], 3.0);
    assert ScanUpTo(column, 3.5, 2) == Scan([], 0.0);
    assert ScanUpTo(column, 3.5, 4) == Scan([2, 3], 1.0);
  }
}
