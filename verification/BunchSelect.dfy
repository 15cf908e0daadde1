/** The one-line summary of a bunch waveform: two counting passes against what they are meant
    to find out. */
module BunchSelect {
  /** A summary of the values on the enabled bunches. */
  datatype Summary =
    | AllSame(value: int)
    | AllButOne(value: int, other: int, otherIx: nat)
    | SingleBunch(value: int, ix: nat)
    | Complicated
    | AllDisabled

  // ------------------------------------------------------------------------------------
  // What the summaries mean

  ghost predicate Agree(wf: seq<int>, en: seq<bool>, v: int)
    requires |wf| == |en|
  {
    forall i :: 0 <= i < |en| && en[i] ==> wf[i] == v
  }

  /** Bunch k is enabled and odd, and every other enabled bunch, of which there is one, has v. */
  ghost predicate OddOneOut(wf: seq<int>, en: seq<bool>, v: int, k: nat)
    requires |wf| == |en|
  {
    && k < |en| && en[k] && wf[k] != v
    && (exists i :: 0 <= i < |en| && en[i] && i != k)
    && (forall i :: 0 <= i < |en| && en[i] && i != k ==> wf[i] == v)
  }

  ghost predicate Lonely(en: seq<bool>, k: nat) {
    k < |en| && en[k] && forall i :: 0 <= i < |en| && en[i] ==> i == k
  }

  ghost predicate NoneEnabled(en: seq<bool>) {
    forall i :: 0 <= i < |en| ==> !en[i]
  }

  /** What a summary asserts of the waveform. */
  ghost predicate Holds(s: Summary, wf: seq<int>, en: seq<bool>)
    requires |wf| == |en|
  {
    match s
    case AllSame(v) => Agree(wf, en, v) && !NoneEnabled(en) && forall k: nat :: !Lonely(en, k)
    case AllButOne(v, other, k) => OddOneOut(wf, en, v, k) && other == wf[k]
    case SingleBunch(v, k) => Lonely(en, k) && wf[k] == v
    case Complicated => !Simple(wf, en)
    case AllDisabled => NoneEnabled(en)
  }

  ghost predicate Simple(wf: seq<int>, en: seq<bool>)
    requires |wf| == |en|
  {
    (exists v :: Agree(wf, en, v)) || (exists v, k :: OddOneOut(wf, en, v, k))
  }

  lemma SimpleOrNot(s: Summary, wf: seq<int>, en: seq<bool>)
    requires |wf| == |en| && Holds(s, wf, en)
    ensures s.Complicated? <==> !Simple(wf, en)
  {
    match s
    case AllSame(v) => assert Agree(wf, en, v);
    case AllButOne(v, _, k) => assert OddOneOut(wf, en, v, k);
    case SingleBunch(v, k) => assert Agree(wf, en, v);
    case Complicated =>
    case AllDisabled => assert Agree(wf, en, 0);
  }

  /** The meaning determines the summary, except that of two enabled bunches that differ
      either may be called the odd one. */
  lemma OneSummary(s: Summary, t: Summary, wf: seq<int>, en: seq<bool>)
    requires |wf| == |en| && Holds(s, wf, en) && Holds(t, wf, en) && s != t
    ensures s.AllButOne? && t.AllButOne? && s.otherIx != t.otherIx
    ensures forall i :: 0 <= i < |en| && en[i] ==> i == s.otherIx || i == t.otherIx
  {
    SimpleOrNot(s, wf, en);
    SimpleOrNot(t, wf, en);
  }

  // ------------------------------------------------------------------------------------
  // Counting

  function Enabled(en: seq<bool>, n: nat): nat
    requires n <= |en|
  {
    if n == 0 then 0 else Enabled(en, n - 1) + if en[n - 1] then 1 else 0
  }

  function Matches(wf: seq<int>, en: seq<bool>, v: int, n: nat): (m: nat)
    requires |wf| == |en| && n <= |en|
    ensures m <= Enabled(en, n)
  {
    if n == 0 then 0 else Matches(wf, en, v, n - 1) + if en[n - 1] && wf[n - 1] == v then 1 else 0
  }

  /** The last enabled bunch that differs from v, if there is any. */
  function LastDiff(wf: seq<int>, en: seq<bool>, v: int, n: nat, before: nat): nat
    requires |wf| == |en| && n <= |en|
  {
    if n == 0 then before
    else if en[n - 1] && wf[n - 1] != v then n - 1
    else LastDiff(wf, en, v, n - 1, before)
  }

  lemma {:induction false} EnabledNone(en: seq<bool>, n: nat)
    requires n <= |en|
    ensures Enabled(en, n) == 0 <==> forall i :: 0 <= i < n ==> !en[i]
  {
    if n > 0 {
      EnabledNone(en, n - 1);
    }
  }

  lemma {:induction false} EnabledOne(en: seq<bool>, k: nat, n: nat)
    requires k < n <= |en| && en[k]
    ensures Enabled(en, n) >= 1
    ensures Enabled(en, n) == 1 <==> forall i :: 0 <= i < n && en[i] ==> i == k
  {
    if k < n - 1 {
      EnabledOne(en, k, n - 1);
    } else {
      EnabledNone(en, n - 1);
    }
  }

  lemma {:induction false} MatchesAll(wf: seq<int>, en: seq<bool>, v: int, n: nat)
    requires |wf| == |en| && n <= |en|
    ensures Matches(wf, en, v, n) == Enabled(en, n) <==> forall i :: 0 <= i < n && en[i] ==> wf[i] == v
  {
    if n > 0 {
      MatchesAll(wf, en, v, n - 1);
    }
  }

  lemma {:induction false} MatchesBut(wf: seq<int>, en: seq<bool>, v: int, k: nat, n: nat)
    requires |wf| == |en| && k < n <= |en| && en[k] && wf[k] != v
    ensures Matches(wf, en, v, n) <= Enabled(en, n) - 1
    ensures Matches(wf, en, v, n) == Enabled(en, n) - 1 <==>
            forall i :: 0 <= i < n && en[i] && i != k ==> wf[i] == v
  {
    if k < n - 1 {
      MatchesBut(wf, en, v, k, n - 1);
    } else {
      MatchesAll(wf, en, v, n - 1);
    }
  }

  lemma {:induction false} LastDiffFound(wf: seq<int>, en: seq<bool>, v: int, n: nat, before: nat)
    requires |wf| == |en| && n <= |en| && Matches(wf, en, v, n) < Enabled(en, n)
    ensures var k := LastDiff(wf, en, v, n, before); k < n && en[k] && wf[k] != v
  {
    if !(en[n - 1] && wf[n - 1] != v) {
      LastDiffFound(wf, en, v, n - 1, before);
    }
  }

  /** A value that is found on all enabled bunches but one has its odd one out at the last
      difference. */
  lemma OddIsLastDiff(wf: seq<int>, en: seq<bool>, v: int, before: nat)
    requires |wf| == |en| && Matches(wf, en, v, |en|) == Enabled(en, |en|) - 1 && Enabled(en, |en|) > 1
    ensures OddOneOut(wf, en, v, LastDiff(wf, en, v, |en|, before))
  {
    var k := LastDiff(wf, en, v, |en|, before);
    LastDiffFound(wf, en, v, |en|, before);
    MatchesBut(wf, en, v, k, |en|);
    EnabledOne(en, k, |en|);
  }

  lemma OddIsCounted(wf: seq<int>, en: seq<bool>, v: int, k: nat)
    requires |wf| == |en| && OddOneOut(wf, en, v, k)
    ensures Matches(wf, en, v, |en|) == Enabled(en, |en|) - 1 && Enabled(en, |en|) > 1
  {
    MatchesBut(wf, en, v, k, |en|);
    EnabledOne(en, k, |en|);
  }

  /** If the first enabled bunch is the odd one out, its own value occurs once. */
  lemma OddFirst(wf: seq<int>, en: seq<bool>, v: int, k: nat)
    requires |wf| == |en| && OddOneOut(wf, en, v, k)
    ensures Matches(wf, en, wf[k], |en|) == 1
  {
    MatchesOnly(wf, en, v, k, |en|);
  }

  lemma {:induction false} MatchesOnly(wf: seq<int>, en: seq<bool>, v: int, k: nat, n: nat)
    requires |wf| == |en| && OddOneOut(wf, en, v, k) && n <= |en|
    ensures Matches(wf, en, wf[k], n) == if k < n then 1 else 0
  {
    if n > 0 {
      MatchesOnly(wf, en, v, k, n - 1);
    }
  }

  lemma {:induction false} MatchesSome(wf: seq<int>, en: seq<bool>, k: nat, n: nat)
    requires |wf| == |en| && k < n <= |en| && en[k]
    ensures Matches(wf, en, wf[k], n) >= 1
  {
    if k < n - 1 {
      MatchesSome(wf, en, k, n - 1);
    }
  }

  // ------------------------------------------------------------------------------------
  // From counts to meanings; first is an enabled bunch

  lemma AgreeHolds(wf: seq<int>, en: seq<bool>, first: nat)
    requires |wf| == |en| && first < |en| && en[first] && Matches(wf, en, wf[first], |en|) == Enabled(en, |en|)
    ensures Enabled(en, |en|) == 1 ==> Holds(SingleBunch(wf[first], first), wf, en)
    ensures Enabled(en, |en|) != 1 ==> Holds(AllSame(wf[first]), wf, en)
    ensures forall v, k :: !OddOneOut(wf, en, v, k)
  {
    MatchesAll(wf, en, wf[first], |en|);
    EnabledOne(en, first, |en|);
    forall k: nat | Lonely(en, k) ensures Enabled(en, |en|) == 1 {
      EnabledOne(en, k, |en|);
    }
  }

  lemma OddHolds(wf: seq<int>, en: seq<bool>, first: nat, v: int, before: nat)
    requires |wf| == |en| && first < |en| && en[first]
    requires Matches(wf, en, v, |en|) == Enabled(en, |en|) - 1 && Enabled(en, |en|) > 1
    ensures var k := LastDiff(wf, en, v, |en|, before);
            k < |wf| && Holds(AllButOne(v, wf[k], k), wf, en)
    ensures v == wf[first] ==> LastDiff(wf, en, v, |en|, before) != first
  {
    OddIsLastDiff(wf, en, v, before);
  }

  /** Once the two easy counts are ruled out, only the first enabled bunch can be the odd one. */
  lemma OnlyFirstOdd(wf: seq<int>, en: seq<bool>, first: nat)
    requires |wf| == |en| && first < |en| && en[first]
    requires Matches(wf, en, wf[first], |en|) < Enabled(en, |en|) - 1
    ensures Simple(wf, en) <==> exists v :: OddOneOut(wf, en, v, first)
    ensures Simple(wf, en) ==> Matches(wf, en, wf[first], |en|) == 1
    ensures Enabled(en, |en|) >= 3
  {
    MatchesSome(wf, en, first, |en|);
    forall v | Agree(wf, en, v) ensures false {
      assert wf[first] == v;
      MatchesAll(wf, en, v, |en|);
    }
    forall v, k: nat | OddOneOut(wf, en, v, k) ensures k == first && Matches(wf, en, wf[first], |en|) == 1 {
      OddIsCounted(wf, en, v, k);
      OddFirst(wf, en, v, k);
    }
  }

  /** With another enabled bunch at hand the last count decides. */
  lemma OddFirstCounted(wf: seq<int>, en: seq<bool>, first: nat, next: nat)
    requires |wf| == |en| && first < next < |en| && en[first] && en[next]
    requires Matches(wf, en, wf[first], |en|) < Enabled(en, |en|) - 1
    requires Matches(wf, en, wf[next], |en|) != Enabled(en, |en|) - 1
    ensures !Simple(wf, en)
  {
    OnlyFirstOdd(wf, en, first);
    forall v | OddOneOut(wf, en, v, first) ensures false {
      assert wf[next] == v;
      OddIsCounted(wf, en, v, first);
    }
  }

  /** The bunch whose value is found but once is the odd one. */
  lemma OddUnique(wf: seq<int>, en: seq<bool>, v: int, k: nat, first: nat)
    requires |wf| == |en| && first < |en| && en[first] && OddOneOut(wf, en, v, k)
    requires Matches(wf, en, wf[first], |en|) < Enabled(en, |en|) - 1
    ensures k == first
  {
    OnlyFirstOdd(wf, en, first);
    OddIsCounted(wf, en, v, k);
  }

  lemma NotMissed(wf: seq<int>, en: seq<bool>, first: nat)
    requires |wf| == |en| && first < |en| && en[first]
    requires Matches(wf, en, wf[first], |en|) == Enabled(en, |en|) - 1 && Enabled(en, |en|) != 2
    ensures forall v :: !OddOneOut(wf, en, v, first)
  {
    forall v | OddOneOut(wf, en, v, first) ensures false {
      OddFirst(wf, en, v, first);
    }
  }

  lemma AnotherEnabled(en: seq<bool>, first: nat)
    requires first < |en| && en[first] && Enabled(en, |en|) > 1
    requires forall i :: 0 <= i < first ==> !en[i]
    ensures exists i :: first + 1 <= i < |en| && en[i]
  {
    EnabledOne(en, first, |en|);
  }

  // ------------------------------------------------------------------------------------
  // The passes

  /** The enables given, or all of the bunches when there is no array of them. */
  ghost function Enables(bunches: nat, enables: array?<bool>): (en: seq<bool>)
    requires enables != null ==> enables.Length == bunches
    ensures |en| == bunches
    reads enables
  {
    if enables == null then seq(bunches, _ => true) else enables[..]
  }

  method CountEnables(bunches: nat, enables: array?<bool>) returns (count: nat)
    requires enables != null ==> enables.Length == bunches
    ensures count == Enabled(Enables(bunches, enables), bunches)
  {
    if enables != null {
      count := 0;
      for i := 0 to bunches
        invariant count == Enabled(Enables(bunches, enables), i)
      {
        count := count + if enables[i] then 1 else 0;
      }
    } else {
      AllEnabled(Enables(bunches, enables), bunches);
      count := bunches;
    }
  }

  lemma {:induction false} AllEnabled(en: seq<bool>, n: nat)
    requires n <= |en| && forall i :: 0 <= i < n ==> en[i]
    ensures Enabled(en, n) == n
  {
    if n > 0 {
      AllEnabled(en, n - 1);
    }
  }

  /** The first enabled bunch from start on; without an array the start is ignored. */
  method NextEnabledIndex(bunches: nat, enables: array?<bool>, start: nat) returns (ix: nat)
    requires bunches > 0
    requires enables != null ==> enables.Length == bunches && exists i :: start <= i < bunches && enables[i]
    ensures ix < bunches && Enables(bunches, enables)[ix]
    ensures enables == null ==> ix == 0
    ensures enables != null ==> start <= ix && forall i :: start <= i < ix ==> !enables[i]
  {
    if enables != null {
      ix := start;
      while !enables[ix]
        invariant start <= ix < bunches
        invariant forall i :: start <= i < ix ==> !enables[i]
        decreases bunches - ix
      {
        ix := ix + 1;
      }
    } else {
      ix := 0;
    }
  }

  method CountValue(wf: array<int>, enables: array?<bool>, value: int, before: nat)
    returns (count: nat, diffIx: nat)
    requires enables != null ==> enables.Length == wf.Length
    ensures count == Matches(wf[..], Enables(wf.Length, enables), value, wf.Length)
    ensures diffIx == LastDiff(wf[..], Enables(wf.Length, enables), value, wf.Length, before)
  {
    count, diffIx := 0, before;
    for i := 0 to wf.Length
      invariant count == Matches(wf[..], Enables(wf.Length, enables), value, i)
      invariant diffIx == LastDiff(wf[..], Enables(wf.Length, enables), value, i, before)
    {
      if enables == null || enables[i] {
        if wf[i] == value {
          count := count + 1;
        } else {
          diffIx := i;
        }
      }
    }
  }

  /** Whether the one odd bunch is the first, which the code misses when it is given no enables
      and there are at least three bunches. */
  ghost predicate Missed(wf: seq<int>, en: seq<bool>)
    requires |wf| == |en|
  {
    |wf| >= 3 && exists v :: OddOneOut(wf, en, v, 0)
  }

  /** In terms of the values alone: all but the first are equal, and it is different. */
  lemma MissedWhen(wf: seq<int>)
    ensures Missed(wf, seq(|wf|, _ => true)) <==>
            |wf| >= 3 && wf[0] != wf[1] && forall i :: 1 <= i < |wf| ==> wf[i] == wf[1]
  {
    var en := seq(|wf|, _ => true);
    if Missed(wf, en) {
      var v :| OddOneOut(wf, en, v, 0);
      assert en[1] && wf[1] == v;
    }
    if |wf| >= 3 && wf[0] != wf[1] && forall i :: 1 <= i < |wf| ==> wf[i] == wf[1] {
      assert en[1];
      assert OddOneOut(wf, en, wf[1], 0);
    }
  }

  /** For one the bunches 1, 0 and 0 are called complicated, not all zero but the first. */
  method FirstOdd() returns (s: Summary)
    ensures s == Complicated && !Holds(s, [1, 0, 0], [true, true, true])
    ensures Holds(AllButOne(0, 1, 0), [1, 0, 0], [true, true, true])
  {
    var wf := new int[3](i => if i == 0 then 1 else 0);
    assert wf[..] == [1, 0, 0] && seq(3, _ => true) == [true, true, true];
    MissedWhen([1, 0, 0]);
    assert OddOneOut([1, 0, 0], [true, true, true], 0, 0) by {
      assert [true, true, true][1];
    }
    s := AssessComplexity(wf, null);
  }

  /** The summary says the truth, and says Complicated only when nothing simpler is true; the
      exception is a first odd bunch when no enables are given. */
  method AssessComplexity(wf: array<int>, enables: array?<bool>) returns (s: Summary)
    requires wf.Length > 0 && (enables != null ==> enables.Length == wf.Length)
    ensures enables != null ==> Holds(s, wf[..], Enables(wf.Length, enables))
    ensures enables == null ==>
              (Holds(s, wf[..], Enables(wf.Length, enables)) <==> !Missed(wf[..], Enables(wf.Length, enables)))
    ensures enables == null && Missed(wf[..], Enables(wf.Length, enables)) ==> s == Complicated
  {
    hide Enabled, Matches, LastDiff, Agree, Lonely, OddOneOut;
    ghost var w, en := wf[..], Enables(wf.Length, enables);
    var enableCount := CountEnables(wf.Length, enables);
    EnabledNone(en, |en|);
    if enables == null {
      AllEnabled(en, |en|);
    }
    if enableCount == 0 {
      return AllDisabled;
    }
    var firstValid := NextEnabledIndex(wf.Length, enables, 0);
    var value := wf[firstValid];
    var count, otherIx := CountValue(wf, enables, value, 0);
    if count == enableCount {
      AgreeHolds(w, en, firstValid);
      s := if count == 1 then SingleBunch(value, firstValid) else AllSame(value);
    } else if count == enableCount - 1 {
      MatchesSome(w, en, firstValid, |en|);
      OddHolds(w, en, firstValid, value, 0);
      s := AllButOne(value, wf[otherIx], otherIx);
      if enableCount != 2 {
        NotMissed(w, en, firstValid);
      }
    } else {
      MatchesAll(w, en, value, |en|);
      OnlyFirstOdd(w, en, firstValid);
      if count == 1 {
        AnotherEnabled(en, firstValid);
        var nextValid := NextEnabledIndex(wf.Length, enables, firstValid + 1);
        var rest := wf[nextValid];
        var restCount, restIx := CountValue(wf, enables, rest, otherIx);
        if restCount == enableCount - 1 {
          OddHolds(w, en, nextValid, rest, otherIx);
          OddUnique(w, en, rest, restIx, firstValid);
          s := AllButOne(rest, wf[firstValid], restIx);
        } else {
          if enables != null {
            OddFirstCounted(w, en, firstValid, nextValid);
          }
          s := Complicated;
        }
      } else {
        s := Complicated;
      }
    }
  }
}
