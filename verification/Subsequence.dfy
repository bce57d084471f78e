// In-order subsequences: what is left of a list when some elements are dropped.
module Subsequence {

  /** `s` is `h` with some elements dropped, each element of `h` used at most once and in order. */
  ghost predicate Sub<T>(s: seq<T>, h: seq<T>)
    decreases |h|
  {
    || s == []
    || (h != [] && s[|s| - 1] == h[|h| - 1] && Sub(s[..|s| - 1], h[..|h| - 1]))
    || (h != [] && Sub(s, h[..|h| - 1]))
  }

  lemma SubSkip<T>(s: seq<T>, h: seq<T>, x: T)
    requires Sub(s, h)
    ensures Sub(s, h + [x])
  {
    assert (h + [x])[..|h|] == h;
  }

  lemma SubTake<T>(s: seq<T>, h: seq<T>, x: T)
    requires Sub(s, h)
    ensures Sub(s + [x], h + [x])
  {
    assert (h + [x])[..|h|] == h && (s + [x])[..|s|] == s;
  }

  lemma {:induction false} SubSelf<T>(s: seq<T>)
    ensures Sub(s, s)
  {
    if s != [] { SubSelf(s[..|s| - 1]); }
  }

  lemma {:induction false} SubConcat<T>(a: seq<T>, h: seq<T>, b: seq<T>, k: seq<T>)
    requires Sub(a, h) && Sub(b, k)
    ensures Sub(a + b, h + k)
    decreases |k|
  {
    if k == [] {
      assert b == [];
      assert a + b == a && h + k == h;
    } else {
      var x, k' := k[|k| - 1], k[..|k| - 1];
      assert h + k == (h + k') + [x];
      if b != [] && b[|b| - 1] == x && Sub(b[..|b| - 1], k') {
        SubConcat(a, h, b[..|b| - 1], k');
        assert a + b == (a + b[..|b| - 1]) + [x];
        SubTake(a + b[..|b| - 1], h + k', x);
      } else {
        if b == [] { assert Sub(b, k'); }
        SubConcat(a, h, b, k');
        SubSkip(a + b, h + k', x);
      }
    }
  }

  lemma {:induction false} SubTrans<T>(a: seq<T>, b: seq<T>, c: seq<T>)
    requires Sub(a, b) && Sub(b, c)
    ensures Sub(a, c)
    decreases |c|
  {
    if a != [] && b != [] {
      var b', c' := b[..|b| - 1], c[..|c| - 1];
      if b[|b| - 1] == c[|c| - 1] && Sub(b', c') {
        if a[|a| - 1] == b[|b| - 1] && Sub(a[..|a| - 1], b') {
          SubTrans(a[..|a| - 1], b', c');
        } else {
          SubTrans(a, b', c');
        }
      } else {
        SubTrans(a, b, c');
      }
    }
  }

  /** A suffix is a subsequence. */
  lemma SubSuffix<T>(h: seq<T>, i: nat)
    requires i <= |h|
    ensures Sub(h[i..], h)
  {
    hide Sub;
    var front, rest := h[..i], h[i..];
    SubSelf(rest);
    SubNothing(front);
    SubConcat([], front, rest, rest);
    assert h == front + rest && [] + rest == rest;
  }

  lemma {:induction false} SubLength<T>(s: seq<T>, h: seq<T>)
    requires Sub(s, h)
    ensures |s| <= |h|
    decreases |h|
  {
    if s != [] {
      if s[|s| - 1] == h[|h| - 1] && Sub(s[..|s| - 1], h[..|h| - 1]) {
        SubLength(s[..|s| - 1], h[..|h| - 1]);
      } else {
        SubLength(s, h[..|h| - 1]);
      }
    }
  }

  lemma {:induction false} SubMember<T>(s: seq<T>, h: seq<T>, i: nat)
    requires Sub(s, h) && i < |s|
    ensures s[i] in h
    decreases |h|
  {
    var front := h[..|h| - 1];
    if s[|s| - 1] == h[|h| - 1] && Sub(s[..|s| - 1], front) {
      if i < |s| - 1 { SubMember(s[..|s| - 1], front, i); }
    } else {
      SubMember(s, front, i);
    }
  }

  lemma SubNothing<T>(h: seq<T>)
    ensures Sub([], h)
  {
  }
}
