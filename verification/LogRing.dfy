// The in-memory log ring: a fixed array and a write position, so that
// overwriting the oldest entry is one slot store.
module LogRing {
  import opened LogRecord

  /** The last n elements, or all of them. */
  function Tail<T>(s: seq<T>, n: nat): (t: seq<T>)
    ensures |t| == if |s| <= n then |s| else n
  {
    if |s| <= n then s else s[|s| - n..]
  }

  /** Keeping the last n of what was kept and one more is keeping the last n of everything. */
  lemma TailPush<T>(s: seq<T>, x: T, n: nat)
    requires n > 0
    ensures Tail(Tail(s, n) + [x], n) == Tail(s + [x], n)
  {
  }

  lemma TailConcat<T>(a: seq<T>, b: seq<T>, n: nat)
    ensures Tail(a + b, n) == if n <= |b| then Tail(b, n) else Tail(a, n - |b|) + b
  {
  }

  class Ring {
    const entries: array<Entry>
    var pos: nat
    var count: nat

    ghost predicate Valid()
      reads this
    {
      && entries.Length > 0
      && pos < entries.Length
      && count <= entries.Length
      && (count < entries.Length ==> pos == count)
    }

    /** The stored entries, oldest first. */
    ghost function Contents(): seq<Entry>
      requires Valid()
      reads this, entries
    {
      if count < entries.Length then entries[..count] else entries[pos..] + entries[..pos]
    }

    constructor (capacity: nat)
      requires capacity > 0
      ensures Valid() && fresh(entries) && entries.Length == capacity && Contents() == []
    {
      entries := new Entry[capacity](_ => Entry("", "", "", "", ""));
      pos, count := 0, 0;
    }

    method Push(entry: Entry)
      requires Valid()
      modifies this`pos, this`count, entries
      ensures Valid()
      ensures Contents() == Tail(old(Contents()) + [entry], entries.Length)
    {
      hide Stored, Contents, Tail;
      ContentsIsStored();
      NextSlot(pos, entries.Length);
      entries[pos] := entry;
      pos := (pos + 1) % entries.Length;
      if count < entries.Length { count := count + 1; }
      ContentsIsStored();
      RingStep(old(entries[..]), old(pos), old(count), entry);
      assert entries[..] == old(entries[..])[old(pos) := entry];
    }

    lemma ContentsIsStored()
      requires Valid()
      ensures Contents() == Stored(entries[..], pos, count)
    {
      assert entries[..count] == entries[..][..count];
      assert entries[pos..] == entries[..][pos..];
      assert entries[..pos] == entries[..][..pos];
    }

    /** Copies the stored entries out, oldest first. */
    method Snapshot() returns (out: seq<Entry>)
      requires Valid()
      ensures out == Contents()
    {
      if count < entries.Length { return entries[..count]; }
      out := entries[pos..] + entries[..pos];
    }
  }

  lemma NextSlot(pos: nat, n: nat)
    requires pos < n
    ensures (pos + 1) % n == if pos + 1 == n then 0 else pos + 1
  {
  }

  /** What a ring array holds, oldest first. */
  ghost function Stored(a: seq<Entry>, pos: nat, count: nat): seq<Entry>
    requires pos < |a| && count <= |a|
  {
    if count < |a| then a[..count] else a[pos..] + a[..pos]
  }

  lemma FillStep(a: seq<Entry>, count: nat, e: Entry)
    requires count < |a|
    ensures Stored(a[count := e], (count + 1) % |a|, count + 1) == a[..count] + [e]
  {
    var b := a[count := e];
    assert b[..count + 1] == a[..count] + [e];
    if count + 1 == |a| {
      assert (count + 1) % |a| == 0;
      assert b[..|a|] == b && b[0..] + b[..0] == b;
    }
  }

  lemma WrapStep(a: seq<Entry>, pos: nat, e: Entry)
    requires pos < |a|
    ensures Stored(a[pos := e], (pos + 1) % |a|, |a|) == a[pos + 1..] + a[..pos] + [e]
  {
    var b := a[pos := e];
    assert b[..pos + 1] == a[..pos] + [e];
    assert b[pos + 1..] == a[pos + 1..];
    if pos + 1 == |a| {
      assert (pos + 1) % |a| == 0;
      assert b[..|a|] == b && b[0..] + b[..0] == b;
      assert a[pos + 1..] == [];
    } else {
      assert (pos + 1) % |a| == pos + 1;
    }
  }

  /** Storing at the write position and moving it on appends, dropping the oldest when full. */
  lemma RingStep(a: seq<Entry>, pos: nat, count: nat, e: Entry)
    requires pos < |a| && count <= |a| && (count < |a| ==> pos == count)
    ensures Stored(a[pos := e], (pos + 1) % |a|, if count < |a| then count + 1 else count)
         == Tail(Stored(a, pos, count) + [e], |a|)
  {
    if count < |a| {
      FillStep(a, count, e);
    } else {
      WrapStep(a, pos, e);
      hide Stored;
      var s := a[pos..] + a[..pos];
      assert a[pos..][1..] == a[pos + 1..];
      assert (s + [e])[1..] == a[pos + 1..] + a[..pos] + [e];
      StoredFull(a, pos);
    }
  }

  lemma StoredFull(a: seq<Entry>, pos: nat)
    requires pos < |a|
    ensures Stored(a, pos, |a|) == a[pos..] + a[..pos]
  {
  }
}
