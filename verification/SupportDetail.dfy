// Attaching redacted detail to the bundle's events, newest first, within one
// budget for all of them; each distinct attribute text is scrubbed once.
module SupportDetail {
  import opened Decimal

  const DETAIL_BUDGET: nat := 131072

  /** A scrubbed detail and its serialized size; no size when there is none, or it cannot be serialized. */
  datatype Scrubbed<D> = Scrubbed(detail: D, size: Option<nat>)

  type Sizes = seq<Option<nat>>

  /** What the events from i on, the newest ones, have used of the budget. */
  function Used(ss: Sizes, i: nat): (n: nat)
    requires i <= |ss|
    ensures n <= DETAIL_BUDGET
    decreases |ss| - i
  {
    if i == |ss| then 0
    else
      var newer := Used(ss, i + 1);
      if ss[i].Some? && newer + ss[i].value <= DETAIL_BUDGET then newer + ss[i].value else newer
  }

  /** An event gets its detail when there is one and it fits in what newer events left. */
  predicate Attached(ss: Sizes, i: nat)
    requires i < |ss|
  {
    ss[i].Some? && Used(ss, i + 1) + ss[i].value <= DETAIL_BUDGET
  }

  function SizesOf<D>(scrub: string -> Scrubbed<D>, attrs: seq<string>): (ss: Sizes)
    ensures |ss| == |attrs|
  {
    seq(|attrs|, i requires 0 <= i < |attrs| => scrub(attrs[i]).size)
  }

  /** The loop, with its memory of texts already scrubbed; `details` starts empty. */
  method AttachDetail<D>(details: array<Option<D>>, attrs: seq<string>, scrub: string -> Scrubbed<D>)
    requires details.Length == |attrs| && forall i :: 0 <= i < |attrs| ==> details[i] == None
    modifies details
    ensures forall i :: 0 <= i < |attrs| ==>
              details[i] == if Attached(SizesOf(scrub, attrs), i) then Some(scrub(attrs[i]).detail) else None
  {
    ghost var ss := SizesOf(scrub, attrs);
    var seen: map<string, Scrubbed<D>> := map[];
    var used, i := 0, |attrs|;
    while i > 0
      invariant 0 <= i <= |attrs| && used == Used(ss, i)
      invariant forall a :: a in seen ==> seen[a] == scrub(a)
      invariant forall j :: 0 <= j < i ==> details[j] == None
      invariant forall j :: i <= j < |attrs| ==>
                  details[j] == if Attached(ss, j) then Some(scrub(attrs[j]).detail) else None
    {
      i := i - 1;
      var s := if attrs[i] in seen then seen[attrs[i]] else scrub(attrs[i]);
      seen := seen[attrs[i] := s];
      if s.size.Some? && used + s.size.value <= DETAIL_BUDGET {
        used := used + s.size.value;
        details[i] := Some(s.detail);
      }
    }
  }

  /** The size of all details from i on. */
  function Sum(ss: Sizes, i: nat): nat
    requires i <= |ss|
    decreases |ss| - i
  {
    if i == |ss| then 0 else Sum(ss, i + 1) + if ss[i].Some? then ss[i].value else 0
  }

  /** The size of the details attached. */
  function AttachedSum(ss: Sizes, i: nat): nat
    requires i <= |ss|
    decreases |ss| - i
  {
    if i == |ss| then 0 else AttachedSum(ss, i + 1) + if Attached(ss, i) then ss[i].value else 0
  }

  /** All the details attached fit the budget together. */
  lemma {:induction false} WithinBudget(ss: Sizes, i: nat)
    requires i <= |ss|
    ensures AttachedSum(ss, i) == Used(ss, i) <= DETAIL_BUDGET
    decreases |ss| - i
  {
    if i < |ss| { WithinBudget(ss, i + 1); }
  }

  /** While everything fits, every detail is attached. */
  lemma {:induction false} AllFit(ss: Sizes, i: nat)
    requires i <= |ss| && Sum(ss, i) <= DETAIL_BUDGET
    ensures Used(ss, i) == Sum(ss, i)
    ensures forall j :: i <= j < |ss| && ss[j].Some? ==> Attached(ss, j)
    decreases |ss| - i
  {
    if i < |ss| { AllFit(ss, i + 1); }
  }

  /** No detail among the events before c fits in what the events after it left. */
  ghost predicate NoneFits(ss: Sizes, c: nat, i: nat)
    requires c < |ss| && i <= c
  {
    forall j :: i <= j < c && ss[j].Some? ==> Sum(ss, c + 1) + ss[j].value > DETAIL_BUDGET
  }

  lemma {:induction false} NoneAttached(ss: Sizes, c: nat, i: nat)
    requires i <= c < |ss| && Sum(ss, c + 1) <= DETAIL_BUDGET < Sum(ss, c) && NoneFits(ss, c, i)
    ensures Used(ss, i) == Sum(ss, c + 1)
    ensures forall j :: i <= j <= c ==> !Attached(ss, j)
    decreases c - i
  {
    AllFit(ss, c + 1);
    if i < c { NoneAttached(ss, c, i + 1); }
  }

  lemma {:induction false} SomeAttached(ss: Sizes, c: nat, i: nat)
    requires i <= c < |ss| && Sum(ss, c + 1) <= DETAIL_BUDGET < Sum(ss, c) && !NoneFits(ss, c, i)
    ensures exists j :: i <= j < c && Attached(ss, j)
    decreases c - i
  {
    if NoneFits(ss, c, i + 1) {
      NoneAttached(ss, c, i + 1);
      assert Attached(ss, i);
    } else {
      SomeAttached(ss, c, i + 1);
    }
  }

  /**
   * Older events past the spent budget do not always lose their detail. With c
   * the newest event that does not fit, everything newer keeps its detail, c
   * loses it, and all older events lose theirs exactly when none of them would
   * fit in what is left.
   */
  lemma OlderLoseDetailIff(ss: Sizes, c: nat)
    requires c < |ss| && Sum(ss, c + 1) <= DETAIL_BUDGET < Sum(ss, c)
    ensures forall j :: c < j < |ss| && ss[j].Some? ==> Attached(ss, j)
    ensures !Attached(ss, c)
    ensures (forall j :: 0 <= j < c ==> !Attached(ss, j)) <==> NoneFits(ss, c, 0)
  {
    AllFit(ss, c + 1);
    if NoneFits(ss, c, 0) { NoneAttached(ss, c, 0); } else { SomeAttached(ss, c, 0); }
  }

  /** Eighteen events, newest last: sixteen details of 8000 bytes, before them one of 5000, before that one of 40. */
  function EighteenSizes(): (ss: Sizes)
    ensures |ss| == 18
  {
    seq(18, i => if i == 0 then Some(40) else if i == 1 then Some(5000) else Some(8000))
  }

  lemma {:induction false} SumOfNewest(i: nat)
    requires 2 <= i <= 18
    ensures Sum(EighteenSizes(), i) == 8000 * (18 - i)
    decreases 18 - i
  {
    if i < 18 { SumOfNewest(i + 1); }
  }

  /** An older event that keeps its detail while a newer one loses it, among details of ordinary size. */
  lemma OlderCanOutlastNewer()
    ensures var ss := EighteenSizes(); Attached(ss, 0) && !Attached(ss, 1)
  {
    var ss := EighteenSizes();
    SumOfNewest(2);
    AllFit(ss, 2);
    assert Used(ss, 1) == 128000;
  }
}
