// Choosing the log records of a support bundle: at most 200, failures first,
// so that no burst of routine records can push one out.
module SupportEvents {
  import opened Decimal
  import opened LogRecord
  import opened LogRing
  import opened LogStream
  import opened Subsequence

  /** The entries below WARN, in order. */
  function Lowers(s: seq<Entry>): seq<Entry> {
    if s == [] then []
    else
      var e := s[|s| - 1];
      if IsWarn(e.level) then Lowers(s[..|s| - 1]) else Lowers(s[..|s| - 1]) + [e]
  }

  lemma {:induction false} WarnsConcat(a: seq<Entry>, b: seq<Entry>)
    ensures Warns(a + b) == Warns(a) + Warns(b)
  {
    hide IsWarn;
    if b == [] {
      assert a + b == a;
    } else {
      assert (a + b)[..|a + b| - 1] == a + b[..|b| - 1];
      WarnsConcat(a, b[..|b| - 1]);
    }
  }

  lemma {:induction false} LowersConcat(a: seq<Entry>, b: seq<Entry>)
    ensures Lowers(a + b) == Lowers(a) + Lowers(b)
  {
    hide IsWarn;
    if b == [] {
      assert a + b == a;
    } else {
      assert (a + b)[..|a + b| - 1] == a + b[..|b| - 1];
      LowersConcat(a, b[..|b| - 1]);
    }
  }

  lemma {:induction false} WarnsOfWarns(s: seq<Entry>)
    ensures Warns(Warns(s)) == Warns(s) && Lowers(Warns(s)) == [] && Sub(Warns(s), s)
    ensures |Warns(s)| + |Lowers(s)| == |s|
  {
    hide Sub;
    if s == [] {
      SubSelf<Entry>([]);
    } else {
      var front, e := s[..|s| - 1], s[|s| - 1];
      WarnsOfWarns(front);
      assert s == front + [e];
      if IsWarn(e.level) {
        assert (Warns(front) + [e])[..|Warns(front)|] == Warns(front);
        SubTake(Warns(front), front, e);
      } else {
        SubSkip(Warns(front), front, e);
      }
    }
  }

  // ----- The snapshot

  /** What the two rings hold after the history, merged as supportSnapshot merges them. */
  function Merged(all: seq<Entry>, warn: seq<Entry>): seq<Entry> {
    var retained := |Warns(all)|;
    if |warn| > retained then warn[..|warn| - retained] + all else all
  }

  method SupportSnapshot(rb: RingBuffer) returns (out: seq<Entry>)
    requires rb.Valid()
    ensures out == Merged(Tail(rb.history, rb.all.entries.Length), Tail(Warns(rb.history), SUPPORT_EVENTS_MAX))
  {
    hide IsWarn, Tail, Warns, Follows;
    var all := rb.all.Snapshot();
    var warn := rb.warn.Snapshot();
    var retained := 0;
    NoWarns();
    for i := 0 to |all|
      invariant retained == |Warns(all[..i])|
    {
      WarnsPush(all[..i], all[i]);
      assert all[..i + 1] == all[..i] + [all[i]];
      if IsWarn(all[i].level) { retained := retained + 1; }
    }
    assert all[..|all|] == all;
    if |warn| > retained { return warn[..|warn| - retained] + all; }
    return all;
  }

  lemma NoWarns()
    ensures Warns([]) == []
  {
  }

  /** How many failures the general ring has let go of that are still owed to the bundle. */
  function Owed(h: seq<Entry>, capacity: nat): nat {
    var held := |Warns(Tail(h, capacity))|;
    if held < SUPPORT_EVENTS_MAX then SUPPORT_EVENTS_MAX - held else 0
  }

  /**
   * The snapshot is the general ring, preceded by the failures it has evicted
   * that belong to the last 200 of all.
   */
  lemma SnapshotIs(h: seq<Entry>, capacity: nat)
    ensures var all := Tail(h, capacity);
            var gone := h[..|h| - |all|];
            Merged(all, Tail(Warns(h), SUPPORT_EVENTS_MAX)) == Tail(Warns(gone), Owed(h, capacity)) + all
  {
    var all := Tail(h, capacity);
    var gone := h[..|h| - |all|];
    assert h == gone + all;
    WarnsConcat(gone, all);
    hide Warns;
    var a, b := Warns(gone), Warns(all);
    TailConcat(a, b, SUPPORT_EVENTS_MAX);
    var warn := Tail(Warns(h), SUPPORT_EVENTS_MAX);
    if SUPPORT_EVENTS_MAX <= |b| {
      assert Tail(a, 0) == [];
      assert [] + all == all;
    } else {
      var older := Tail(a, SUPPORT_EVENTS_MAX - |b|);
      assert (older + b)[..|older|] == older;
      assert [] + all == all;
    }
  }

  // ----- The choice

  /** Whether position j is kept, given where kept failures and kept lower entries start. */
  predicate KeptAt(s: seq<Entry>, a: nat, b: nat, j: nat)
    requires j < |s|
  {
    if IsWarn(s[j].level) then a <= j else b <= j
  }

  /** The kept positions' entries, in order. */
  function Thin(s: seq<Entry>, a: nat, b: nat): seq<Entry> {
    if s == [] then []
    else
      var n := |s| - 1;
      if KeptAt(s, a, b, n) then Thin(s[..n], a, b) + [s[n]] else Thin(s[..n], a, b)
  }

  /** A choice: the newest failures, the newest of the rest in what room is left, in order. */
  ghost predicate Chosen(out: seq<Entry>, s: seq<Entry>) {
    && Warns(out) == Tail(Warns(s), SUPPORT_EVENTS_MAX)
    && Lowers(out) == Tail(Lowers(s), SUPPORT_EVENTS_MAX - |Warns(out)|)
    && |out| <= SUPPORT_EVENTS_MAX
    && Sub(out, s)
  }

  lemma {:induction false} ThinWarns(s: seq<Entry>, a: nat, b: nat)
    requires a <= |s|
    ensures Warns(Thin(s, a, b)) == Warns(s[a..])
  {
    hide IsWarn, Warns;
    if a == |s| {
      assert s[a..] == [];
      NoWarns();
      ThinNoWarns(s, a, b);
    } else {
      var n := |s| - 1;
      ThinWarns(s[..n], a, b);
      assert s[a..] == s[..n][a..] + [s[n]];
      WarnsPush(s[..n][a..], s[n]);
      WarnsPush(Thin(s[..n], a, b), s[n]);
    }
  }

  lemma {:induction false} ThinNoWarns(s: seq<Entry>, a: nat, b: nat)
    requires a >= |s|
    ensures Warns(Thin(s, a, b)) == []
  {
    hide IsWarn, Warns;
    NoWarns();
    if s != [] {
      var n := |s| - 1;
      ThinNoWarns(s[..n], a, b);
      WarnsPush(Thin(s[..n], a, b), s[n]);
    }
  }

  lemma {:induction false} ThinLowers(s: seq<Entry>, a: nat, b: nat)
    requires b <= |s|
    ensures Lowers(Thin(s, a, b)) == Lowers(s[b..])
  {
    hide IsWarn, Lowers;
    if b == |s| {
      assert s[b..] == [];
      NoLowers();
      ThinNoLowers(s, a, b);
    } else {
      var n := |s| - 1;
      ThinLowers(s[..n], a, b);
      assert s[b..] == s[..n][b..] + [s[n]];
      LowersPush(s[..n][b..], s[n]);
      LowersPush(Thin(s[..n], a, b), s[n]);
    }
  }

  lemma {:induction false} ThinNoLowers(s: seq<Entry>, a: nat, b: nat)
    requires b >= |s|
    ensures Lowers(Thin(s, a, b)) == []
  {
    hide IsWarn, Lowers;
    NoLowers();
    if s != [] {
      var n := |s| - 1;
      ThinNoLowers(s[..n], a, b);
      LowersPush(Thin(s[..n], a, b), s[n]);
    }
  }

  lemma NoLowers()
    ensures Lowers([]) == []
  {
  }

  lemma {:induction false} ThinSub(s: seq<Entry>, a: nat, b: nat)
    ensures Sub(Thin(s, a, b), s)
  {
    hide Sub, KeptAt;
    if s == [] {
      SubSelf<Entry>([]);
    } else {
      var n := |s| - 1;
      ThinSub(s[..n], a, b);
      assert s == s[..n] + [s[n]];
      SubTake(Thin(s[..n], a, b), s[..n], s[n]);
      SubSkip(Thin(s[..n], a, b), s[..n], s[n]);
    }
  }

  lemma LowersPush(s: seq<Entry>, e: Entry)
    ensures Lowers(s + [e]) == if IsWarn(e.level) then Lowers(s) else Lowers(s) + [e]
  {
    assert (s + [e])[..|s|] == s;
  }

  lemma SuffixCount(s: seq<Entry>, a: nat)
    requires a <= |s|
    ensures Warns(s[a..]) == Tail(Warns(s), |Warns(s[a..])|)
    ensures Lowers(s[a..]) == Tail(Lowers(s), |Lowers(s[a..])|)
  {
    hide Warns, Lowers;
    assert s == s[..a] + s[a..];
    WarnsConcat(s[..a], s[a..]);
    LowersConcat(s[..a], s[a..]);
  }

  /** Thinning that keeps the newest failures up to the limit, then the newest of the rest, is a choice. */
  lemma ThinChosen(s: seq<Entry>, a: nat, b: nat)
    requires a <= |s| && b <= |s|
    requires |Warns(s[a..])| == SUPPORT_EVENTS_MAX || (a == 0 && |Warns(s)| <= SUPPORT_EVENTS_MAX)
    requires || |Lowers(s[b..])| == SUPPORT_EVENTS_MAX - |Warns(s[a..])|
             || (b == 0 && |Lowers(s)| <= SUPPORT_EVENTS_MAX - |Warns(s[a..])|)
    ensures Chosen(Thin(s, a, b), s)
  {
    hide Warns, Lowers, Sub, Thin;
    assert s[0..] == s;
    ThinWarns(s, a, b);
    ThinLowers(s, a, b);
    ThinSub(s, a, b);
    SuffixCount(s, a);
    SuffixCount(s, b);
    WarnsOfWarns(Thin(s, a, b));
  }

  // ----- The loops that make it

  ghost predicate Increasing(k: seq<nat>) {
    forall i, j :: 0 <= i < j < |k| ==> k[i] < k[j]
  }

  ghost function Elems(k: seq<nat>): set<nat> { set y | y in k }

  lemma ElemsInsert(k: seq<nat>, i: nat, x: nat)
    requires i <= |k|
    ensures Elems(k[..i] + [x] + k[i..]) == Elems(k) + {x}
  {
    assert k == k[..i] + k[i..];
  }

  lemma ElemsPush(k: seq<nat>, x: nat)
    ensures Elems(k + [x]) == Elems(k) + {x}
  {
  }

  /** Puts a position into its place among increasing ones (slices.Sort, one insertion at a time). */
  method Insert(k: seq<nat>, x: nat) returns (r: seq<nat>)
    requires Increasing(k) && x !in Elems(k)
    ensures Increasing(r) && Elems(r) == Elems(k) + {x}
  {
    hide Elems;
    var i := |k|;
    while i > 0 && k[i - 1] > x
      invariant 0 <= i <= |k| && (i < |k| ==> k[i] > x)
    {
      i := i - 1;
    }
    assert i > 0 ==> k[i - 1] != x by { ElemsAt(k); }
    r := k[..i] + [x] + k[i..];
    ElemsInsert(k, i, x);
  }

  lemma ElemsAt(k: seq<nat>)
    ensures forall i :: 0 <= i < |k| ==> k[i] in Elems(k)
  {
  }

  /** The positions collected so far are distinct. */
  ghost predicate Distinct(k: seq<nat>) {
    forall i, j :: 0 <= i < j < |k| ==> k[i] != k[j]
  }

  method SortPositions(keep: seq<nat>) returns (r: seq<nat>)
    requires Distinct(keep)
    ensures Increasing(r) && Elems(r) == Elems(keep)
  {
    hide Elems, Increasing;
    r := [];
    NoElems();
    for i := 0 to |keep|
      invariant Increasing(r) && Elems(r) == Elems(keep[..i])
    {
      assert keep[..i + 1] == keep[..i] + [keep[i]];
      ElemsPush(keep[..i], keep[i]);
      NewElem(keep, i);
      r := Insert(r, keep[i]);
    }
    assert keep[..|keep|] == keep;
  }

  lemma NoElems()
    ensures Elems([]) == {} && Increasing([])
  {
  }

  lemma NewElem(k: seq<nat>, i: nat)
    requires Distinct(k) && i < |k|
    ensures k[i] !in Elems(k[..i])
  {
  }

  function Pick(s: seq<Entry>, k: seq<nat>): (out: seq<Entry>)
    requires forall i :: 0 <= i < |k| ==> k[i] < |s|
    ensures |out| == |k| && forall i :: 0 <= i < |k| ==> out[i] == s[k[i]]
  {
    seq(|k|, i requires 0 <= i < |k| => s[k[i]])
  }

  /** The positions that are kept. */
  ghost function KeptSet(s: seq<Entry>, a: nat, b: nat): set<nat> {
    set j: nat | j < |s| && KeptAt(s, a, b, j)
  }

  lemma KeptSetFront(s: seq<Entry>, a: nat, b: nat)
    requires s != []
    ensures var n := |s| - 1;
            KeptSet(s, a, b) == KeptSet(s[..n], a, b) + (if KeptAt(s, a, b, n) then {n} else {})
  {
    hide IsWarn;
    var n := |s| - 1;
    assert forall j: nat :: j < n ==> KeptAt(s[..n], a, b, j) == KeptAt(s, a, b, j);
  }

  /** The largest of increasing positions stands last. */
  lemma LastIsLargest(k: seq<nat>, n: nat)
    requires Increasing(k) && n in Elems(k) && forall y :: y in Elems(k) ==> y <= n
    ensures k != [] && k[|k| - 1] == n && Elems(k[..|k| - 1]) == Elems(k) - {n} && Increasing(k[..|k| - 1])
  {
    ElemsAt(k);
    var i :| 0 <= i < |k| && k[i] == n;
    assert k[|k| - 1] <= n;
    assert i == |k| - 1;
    assert k == k[..i] + [n];
    ElemsPush(k[..i], n);
    assert n !in Elems(k[..i]);
  }

  /** Picking exactly the kept positions, in increasing order, is thinning. */
  lemma {:induction false} PickIsThin(s: seq<Entry>, k: seq<nat>, a: nat, b: nat)
    requires Increasing(k) && Elems(k) == KeptSet(s, a, b)
    ensures forall i :: 0 <= i < |k| ==> k[i] < |s|
    ensures Pick(s, k) == Thin(s, a, b)
    decreases |s|
  {
    hide KeptAt, Increasing;
    ElemsAt(k);
    assert k != [] ==> k[0] in Elems(k);
    if s != [] {
      var n := |s| - 1;
      KeptSetFront(s, a, b);
      if KeptAt(s, a, b, n) {
        LastIsLargest(k, n);
        var k' := k[..|k| - 1];
        PickIsThin(s[..n], k', a, b);
        assert Pick(s, k) == Pick(s[..n], k') + [s[n]];
      } else {
        assert n !in KeptSet(s, a, b);
        PickIsThin(s[..n], k, a, b);
        assert Pick(s, k) == Pick(s[..n], k);
      }
    }
  }

  /** Walks from the newest back, collecting positions of one kind until `keep` is full. */
  method Collect(s: seq<Entry>, warn: bool, keep0: seq<nat>) returns (keep: seq<nat>, from: nat)
    requires |keep0| <= SUPPORT_EVENTS_MAX && Distinct(keep0)
    requires forall j :: 0 <= j < |keep0| ==> keep0[j] < |s| && IsWarn(s[keep0[j]].level) != warn
    ensures from <= |s| && Distinct(keep) && |keep| <= SUPPORT_EVENTS_MAX
    ensures forall j :: 0 <= j < |keep| ==> keep[j] < |s|
    ensures Elems(keep) == Elems(keep0) + OfKind(s, warn, from)
    ensures |keep| == |keep0| + |if warn then Warns(s[from..]) else Lowers(s[from..])|
    ensures from == 0 || |keep| == SUPPORT_EVENTS_MAX
  {
    keep, from := keep0, |s|;
    assert s[|s|..] == [];
    while from > 0 && |keep| < SUPPORT_EVENTS_MAX
      invariant from <= |s| && Distinct(keep) && |keep| <= SUPPORT_EVENTS_MAX
      invariant forall j :: 0 <= j < |keep| ==> keep[j] < |s| && (IsWarn(s[keep[j]].level) == warn ==> from <= keep[j])
      invariant Elems(keep) == Elems(keep0) + OfKind(s, warn, from)
      invariant |keep| == |keep0| + |if warn then Warns(s[from..]) else Lowers(s[from..])|
    {
      hide Warns, Lowers, Elems, OfKind;
      from := from - 1;
      OneMore(s, warn, from);
      if IsWarn(s[from].level) == warn {
        ElemsPush(keep, from);
        keep := keep + [from];
      }
    }
  }

  /** The positions of one kind from `from` on. */
  ghost function OfKind(s: seq<Entry>, warn: bool, from: nat): set<nat> {
    set j: nat | from <= j < |s| && IsWarn(s[j].level) == warn
  }

  lemma OneMore(s: seq<Entry>, warn: bool, from: nat)
    requires from < |s|
    ensures OfKind(s, warn, from) == OfKind(s, warn, from + 1) + (if IsWarn(s[from].level) == warn then {from} else {})
    ensures |Warns(s[from..])| == |Warns(s[from + 1..])| + (if IsWarn(s[from].level) then 1 else 0)
    ensures |Lowers(s[from..])| == |Lowers(s[from + 1..])| + (if IsWarn(s[from].level) then 0 else 1)
  {
    assert s[from..] == [s[from]] + s[from + 1..];
    WarnsConcat([s[from]], s[from + 1..]);
    LowersConcat([s[from]], s[from + 1..]);
    OneAlone(s[from]);
    hide IsWarn, Warns, Lowers;
  }

  lemma OneAlone(e: Entry)
    ensures |Warns([e])| == if IsWarn(e.level) then 1 else 0
    ensures |Lowers([e])| == if IsWarn(e.level) then 0 else 1
  {
    hide IsWarn;
    assert [e][..0] == [];
  }

  /** Keeps the valid entries: those whose timestamp parses. */
  function Valid(parseTime: string -> Option<nat>, s: seq<Entry>): seq<Entry> {
    if s == [] then []
    else
      var e := s[|s| - 1];
      if parseTime(e.ts).Some? then Valid(parseTime, s[..|s| - 1]) + [e] else Valid(parseTime, s[..|s| - 1])
  }

  /** The selection over the valid entries. */
  method Select(valid: seq<Entry>) returns (out: seq<Entry>)
    ensures Chosen(out, valid)
  {
    if |valid| <= SUPPORT_EVENTS_MAX {
      WarnsOfWarns(valid);
      SubSelf(valid);
      return valid;
    }
    hide Chosen, Warns, Lowers, Thin, IsWarn, Elems, OfKind, KeptSet;
    NoElems();
    var keep, a := Collect(valid, true, []);
    var b: nat;
    OnlyKind(valid, a, keep);
    keep, b := Collect(valid, false, keep);
    var sorted := SortPositions(keep);
    KindsAreKept(valid, a, b);
    PickIsThin(valid, sorted, a, b);
    CountsFit(valid, a, b);
    ThinChosen(valid, a, b);
    out := Pick(valid, sorted);
  }

  lemma OnlyKind(s: seq<Entry>, a: nat, keep: seq<nat>)
    requires Elems(keep) == Elems([]) + OfKind(s, true, a)
    ensures forall j :: 0 <= j < |keep| ==> keep[j] < |s| && IsWarn(s[keep[j]].level)
  {
    ElemsAt(keep);
  }

  lemma KindsAreKept(s: seq<Entry>, a: nat, b: nat)
    ensures Elems([]) + OfKind(s, true, a) + OfKind(s, false, b) == KeptSet(s, a, b)
  {
  }

  lemma CountsFit(s: seq<Entry>, a: nat, b: nat)
    requires a <= |s| && b <= |s|
    ensures |Warns(s[a..])| + |Lowers(s[a..])| == |s| - a
    ensures a == 0 ==> s[a..] == s
    ensures b == 0 ==> s[b..] == s
  {
    WarnsOfWarns(s[a..]);
  }

  // ----- What the bundle holds of the whole write history

  /** Failures and lower entries of the snapshot, in terms of everything ever written. */
  lemma SnapshotParts(h: seq<Entry>, capacity: nat)
    ensures var snap := Merged(Tail(h, capacity), Tail(Warns(h), SUPPORT_EVENTS_MAX));
            && Tail(Warns(snap), SUPPORT_EVENTS_MAX) == Tail(Warns(h), SUPPORT_EVENTS_MAX)
            && Lowers(snap) == Lowers(Tail(h, capacity))
            && Sub(snap, h)
  {
    hide Warns, Lowers, Sub, Merged;
    var all := Tail(h, capacity);
    var gone := h[..|h| - |all|];
    SnapshotIs(h, capacity);
    assert h == gone + all;
    WarnsConcat(gone, all);
    var a, b := Warns(gone), Warns(all);
    var owed := Tail(a, Owed(h, capacity));
    WarnsConcat(owed, all);
    LowersConcat(owed, all);
    WarnsOfWarns(gone);
    SuffixOfWarns(gone, Owed(h, capacity));
    assert [] + Lowers(all) == Lowers(all);
    TailConcat(a, b, SUPPORT_EVENTS_MAX);
    TailConcat(owed, b, SUPPORT_EVENTS_MAX);
    SubTrans(owed, a, gone);
    SubSelf(all);
    SubConcat(owed, gone, all, all);
  }

  /** The newest failures are themselves all failures, and in order. */
  lemma SuffixOfWarns(s: seq<Entry>, n: nat)
    ensures var t := Tail(Warns(s), n); Warns(t) == t && Lowers(t) == [] && Sub(t, Warns(s))
  {
    hide Warns, Lowers, Sub;
    var w := Warns(s);
    var t := Tail(w, n);
    WarnsOfWarns(s);
    assert w == w[..|w| - |t|] + t;
    WarnsConcat(w[..|w| - |t|], t);
    LowersConcat(w[..|w| - |t|], t);
    WarnsOfWarns(w[..|w| - |t|]);
    WarnsOfWarns(t);
    SubLength(Warns(t), t);
    SubLength(Warns(w[..|w| - |t|]), w[..|w| - |t|]);
    SubSuffix(w, |w| - |t|);
  }

  /**
   * However many lower entries follow, the bundle holds the last 200 failures
   * ever written, fills what room is left with the newest lower entries still
   * held, at most 200 in all and in the order they were written.
   */
  lemma BundleKeepsFailures(h: seq<Entry>, capacity: nat, out: seq<Entry>)
    requires Chosen(out, Merged(Tail(h, capacity), Tail(Warns(h), SUPPORT_EVENTS_MAX)))
    ensures Warns(out) == Tail(Warns(h), SUPPORT_EVENTS_MAX)
    ensures Lowers(out) == Tail(Lowers(Tail(h, capacity)), SUPPORT_EVENTS_MAX - |Warns(out)|)
    ensures |out| <= SUPPORT_EVENTS_MAX && Sub(out, h)
  {
    hide Warns, Lowers, Sub, Merged, Tail;
    var snap := Merged(Tail(h, capacity), Tail(Warns(h), SUPPORT_EVENTS_MAX));
    SnapshotParts(h, capacity);
    SubTrans(out, snap, h);
  }

  lemma {:induction false} ValidAll(parseTime: string -> Option<nat>, s: seq<Entry>)
    requires forall i :: 0 <= i < |s| ==> parseTime(s[i].ts).Some?
    ensures Valid(parseTime, s) == s
  {
    if s != [] { ValidAll(parseTime, s[..|s| - 1]); }
  }

  lemma {:induction false} SubValid(parseTime: string -> Option<nat>, s: seq<Entry>, h: seq<Entry>)
    requires Sub(s, h) && forall i :: 0 <= i < |h| ==> parseTime(h[i].ts).Some?
    ensures forall i :: 0 <= i < |s| ==> parseTime(s[i].ts).Some?
    decreases |h|
  {
    if s != [] {
      if s[|s| - 1] == h[|h| - 1] && Sub(s[..|s| - 1], h[..|h| - 1]) {
        SubValid(parseTime, s[..|s| - 1], h[..|h| - 1]);
      } else {
        SubValid(parseTime, s, h[..|h| - 1]);
      }
    }
  }

  /** The bundle's records: the snapshot, the valid ones of it, the choice among them. */
  method Bundle(rb: RingBuffer, parseTime: string -> Option<nat>) returns (out: seq<Entry>)
    requires rb.Valid()
    ensures var snapshot :=
              Merged(Tail(rb.history, rb.all.entries.Length), Tail(Warns(rb.history), SUPPORT_EVENTS_MAX));
            Chosen(out, Valid(parseTime, snapshot))
    ensures (forall i :: 0 <= i < |rb.history| ==> parseTime(rb.history[i].ts).Some?) ==>
              && Warns(out) == Tail(Warns(rb.history), SUPPORT_EVENTS_MAX)
              && Lowers(out) == Tail(Lowers(Tail(rb.history, rb.all.entries.Length)), SUPPORT_EVENTS_MAX - |Warns(out)|)
              && |out| <= SUPPORT_EVENTS_MAX && Sub(out, rb.history)
  {
    hide Warns, Lowers, Sub, Merged, Tail, Chosen, Follows;
    var entries := SupportSnapshot(rb);
    var valid := [];
    for i := 0 to |entries|
      invariant valid == Valid(parseTime, entries[..i])
    {
      assert entries[..i + 1][..i] == entries[..i];
      if parseTime(entries[i].ts).Some? { valid := valid + [entries[i]]; }
    }
    assert entries[..|entries|] == entries;
    out := Select(valid);
    SnapshotParts(rb.history, rb.all.entries.Length);
    if forall i :: 0 <= i < |rb.history| ==> parseTime(rb.history[i].ts).Some? {
      SubValid(parseTime, entries, rb.history);
      ValidAll(parseTime, entries);
      BundleKeepsFailures(rb.history, rb.all.entries.Length, out);
    }
  }
}
