// The live log: every entry goes into a general ring and, at WARN or above,
// into a ring of its own, and is offered to each subscriber's channel without
// ever blocking. A subscriber takes its backfill and its place in the live
// feed in one locked step.
module LogStream {
  import opened LogRecord
  import opened LogRing
  import opened Subsequence

  const SUPPORT_EVENTS_MAX: nat := 200
  const CHANNEL: nat := 64

  predicate IsWarn(level: string) { level == "WARN" || level == "ERROR" }

  /** The WARN-and-above entries, in order. */
  function Warns(s: seq<Entry>): seq<Entry> {
    if s == [] then []
    else
      var e := s[|s| - 1];
      if IsWarn(e.level) then Warns(s[..|s| - 1]) + [e] else Warns(s[..|s| - 1])
  }

  lemma WarnsPush(s: seq<Entry>, e: Entry)
    ensures Warns(s + [e]) == if IsWarn(e.level) then Warns(s) + [e] else Warns(s)
  {
    assert (s + [e])[..|s|] == s;
  }

  // ----- Subscribers

  /**
   * One subscriber: the backfill it was given, what it has received, what its
   * channel still holds, and whether an entry ever found the channel full.
   */
  datatype Stream = Stream(backfill: seq<Entry>, received: seq<Entry>, queue: seq<Entry>, live: bool, missed: bool) {
    function Seen(): seq<Entry> { backfill + received + queue }
  }

  /** A non-blocking send: a full channel drops the entry. */
  function Offer(s: Stream, e: Entry): Stream {
    if !s.live then s
    else if |s.queue| < CHANNEL then s.(queue := s.queue + [e])
    else s.(missed := true)
  }

  /** The stretch of the write history a subscriber has stood by for: `at` is where it subscribed. */
  datatype Reach = Reach(from: nat, at: nat, to: nat)

  /**
   * The backfill is the last `capacity` entries before the subscription;
   * everything seen is in order and from the stretch, and it is the whole
   * stretch unless the channel was ever full.
   */
  ghost predicate Follows(s: Stream, h: seq<Entry>, w: Reach, capacity: nat) {
    && w.from <= w.at <= w.to <= |h|
    && s.backfill == h[w.from..w.at] == Tail(h[0..w.at], capacity)
    && (s.live ==> w.to == |h|)
    && |s.queue| <= CHANNEL
    && Sub(s.Seen(), h[w.from..w.to])
    && (if s.missed then |s.Seen()| < w.to - w.from else s.Seen() == h[w.from..w.to])
  }

  function Extend(w: Reach, live: bool): Reach { if live then w.(to := w.to + 1) else w }

  lemma SliceBelow<T>(h: seq<T>, e: T, i: nat, j: nat)
    requires i <= j <= |h|
    ensures (h + [e])[i..j] == h[i..j]
  {
  }

  lemma SliceToEnd<T>(h: seq<T>, e: T, i: nat)
    requires i <= |h|
    ensures (h + [e])[i..|h| + 1] == h[i..|h|] + [e]
  {
  }

  lemma OfferFollows(s: Stream, h: seq<Entry>, w: Reach, capacity: nat, e: Entry)
    requires Follows(s, h, w, capacity)
    ensures Follows(Offer(s, e), h + [e], Extend(w, s.live), capacity)
  {
    hide Tail, Sub;
    SliceBelow(h, e, w.from, w.at);
    SliceBelow(h, e, 0, w.at);
    if s.live {
      SliceToEnd(h, e, w.from);
      var stretch := h[w.from..w.to];
      if |s.queue| < CHANNEL {
        SubTake(s.Seen(), stretch, e);
        assert s.backfill + s.received + (s.queue + [e]) == s.Seen() + [e];
      } else {
        SubSkip(s.Seen(), stretch, e);
        SubLength(s.Seen(), stretch);
      }
    } else {
      SliceBelow(h, e, w.from, w.to);
    }
  }

  lemma LeaveFollows(s: Stream, h: seq<Entry>, w: Reach, capacity: nat)
    requires Follows(s, h, w, capacity)
    ensures Follows(s.(live := false), h, w, capacity)
  {
    hide Tail, Sub;
  }

  /** A client taking the next entry out of its channel changes nothing it has seen. */
  lemma ReceiveFollows(s: Stream, h: seq<Entry>, w: Reach, capacity: nat)
    requires Follows(s, h, w, capacity) && s.queue != []
    ensures Follows(s.(received := s.received + [s.queue[0]], queue := s.queue[1..]), h, w, capacity)
  {
    hide Tail, Sub;
    var t := s.(received := s.received + [s.queue[0]], queue := s.queue[1..]);
    assert t.Seen() == s.Seen();
  }

  lemma FreshFollows(h: seq<Entry>, capacity: nat)
    ensures var back := Tail(h, capacity);
            Follows(Stream(back, [], [], true, false), h, Reach(|h| - |back|, |h|, |h|), capacity)
  {
    hide Sub;
    var back := Tail(h, capacity);
    assert h[0..|h|] == h && h[|h| - |back|..|h|] == back;
    assert back + [] + [] == back;
    SubSelf(back);
  }

  class RingBuffer {
    const all: Ring
    const warn: Ring
    var streams: map<nat, Stream>

    // Every entry ever written, and each subscriber's stretch of it.
    ghost var history: seq<Entry>
    ghost var reaches: map<nat, Reach>

    ghost predicate Valid()
      reads this, all, warn, all.entries, warn.entries
    {
      && all != warn && all.entries != warn.entries
      && all.Valid() && warn.Valid()
      && warn.entries.Length == SUPPORT_EVENTS_MAX
      && all.Contents() == Tail(history, all.entries.Length)
      && warn.Contents() == Tail(Warns(history), SUPPORT_EVENTS_MAX)
      && streams.Keys == reaches.Keys
      && forall id :: id in streams ==> Follows(streams[id], history, reaches[id], all.entries.Length)
    }

    constructor (capacity: nat)
      requires capacity > 0
      ensures Valid() && history == [] && streams == map[] && all.entries.Length == capacity
      ensures fresh(all) && fresh(warn) && fresh(all.entries) && fresh(warn.entries)
    {
      all := new Ring(capacity);
      warn := new Ring(SUPPORT_EVENTS_MAX);
      streams, reaches := map[], map[];
      history := [];
    }

    /** Offers the entry to every subscriber. */
    method FanOut(entry: Entry)
      modifies this`streams
      ensures streams == map id | id in old(streams) :: Offer(old(streams)[id], entry)
    {
      hide Offer;
      var ids := streams.Keys;
      while ids != {}
        invariant ids <= streams.Keys == old(streams).Keys
        invariant forall id :: id in streams ==>
                    streams[id] == if id in ids then old(streams)[id] else Offer(old(streams)[id], entry)
        decreases ids
      {
        var id :| id in ids;
        streams := streams[id := Offer(streams[id], entry)];
        ids := ids - {id};
      }
    }

    method PushRings(entry: Entry)
      requires Valid()
      modifies all, warn, all.entries, warn.entries
      ensures all.Valid() && warn.Valid()
      ensures all.Contents() == Tail(history + [entry], all.entries.Length)
      ensures warn.Contents() == Tail(Warns(history + [entry]), SUPPORT_EVENTS_MAX)
    {
      hide Tail, Follows, Warns, IsWarn;
      TailPush(history, entry, all.entries.Length);
      TailPush(Warns(history), entry, SUPPORT_EVENTS_MAX);
      WarnsPush(history, entry);
      all.Push(entry);
      if IsWarn(entry.level) { warn.Push(entry); }
    }

    method Write(entry: Entry)
      requires Valid()
      modifies this, all, warn, all.entries, warn.entries
      ensures Valid() && history == old(history) + [entry]
      ensures streams.Keys == old(streams).Keys
      ensures forall id :: id in streams ==> streams[id] == Offer(old(streams)[id], entry)
      ensures forall id :: id in streams ==> reaches[id] == Extend(old(reaches)[id], old(streams)[id].live)
    {
      hide Tail, Offer, Follows, Extend, Warns, IsWarn;
      PushRings(entry);
      FanOut(entry);
      forall id | id in streams
        ensures Follows(streams[id], history + [entry], Extend(reaches[id], old(streams)[id].live), all.entries.Length)
      {
        OfferFollows(old(streams)[id], history, reaches[id], all.entries.Length, entry);
      }
      reaches := map id | id in reaches :: Extend(reaches[id], old(streams)[id].live);
      history := history + [entry];
    }

    /** The backfill and the subscription, in one step: nothing falls between them. */
    method SnapshotAndSubscribe(id: nat)
      requires Valid() && id !in streams
      modifies this`streams, this`reaches
      ensures Valid() && streams.Keys == old(streams).Keys + {id}
      ensures streams[id] == Stream(Tail(history, all.entries.Length), [], [], true, false)
      ensures forall k :: k in old(streams) ==> streams[k] == old(streams)[k] && reaches[k] == old(reaches)[k]
    {
      hide Tail, Follows, Warns;
      var out := all.Snapshot();
      FreshFollows(history, all.entries.Length);
      streams := streams[id := Stream(out, [], [], true, false)];
      reaches := reaches[id := Reach(|history| - |out|, |history|, |history|)];
    }

    method Receive(id: nat) returns (entry: Entry)
      requires Valid() && id in streams && streams[id].queue != []
      modifies this`streams
      ensures Valid() && entry == old(streams)[id].queue[0]
      ensures var s := old(streams)[id];
              streams == old(streams)[id := s.(received := s.received + [entry], queue := s.queue[1..])]
    {
      hide Tail, Follows, Warns;
      var s := streams[id];
      ReceiveFollows(s, history, reaches[id], all.entries.Length);
      entry := s.queue[0];
      streams := streams[id := s.(received := s.received + [entry], queue := s.queue[1..])];
    }

    method Unsubscribe(id: nat)
      requires Valid()
      modifies this`streams
      ensures Valid() && streams.Keys == old(streams).Keys
      ensures forall k :: k in streams && k != id ==> streams[k] == old(streams)[k]
      ensures id in streams ==> streams[id] == old(streams)[id].(live := false)
    {
      hide Tail, Warns, Follows;
      if id in streams {
        var s := streams[id];
        LeaveFollows(s, history, reaches[id], all.entries.Length);
        streams := streams[id := s.(live := false)];
      }
    }

    /**
     * What a live subscriber has been given, taken and still has waiting is a
     * contiguous suffix of everything written exactly when no entry ever found
     * its channel full; otherwise it is that suffix with entries missing.
     */
    lemma LiveStreamIsSuffix(id: nat)
      requires Valid() && id in streams && streams[id].live
      ensures var s, n := streams[id], reaches[id].from;
              && n <= |history| && Sub(s.Seen(), history[n..])
              && (!s.missed <==> s.Seen() == history[n..])
              && |s.backfill| <= |history| - n
              && s.backfill == history[n..n + |s.backfill|]
    {
      hide Tail, Warns, Sub;
      assert Follows(streams[id], history, reaches[id], all.entries.Length);
      assert history[reaches[id].from..|history|] == history[reaches[id].from..];
    }
  }
}
