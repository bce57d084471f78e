// The trie of known names: nodes are added along a path of tokens, and a walk
// from the root finds the longest known name a text starts with.
module NameTrie {

  type Tokens = seq<string>

  class Node {
    var next: map<string, Node>
    var end: bool

    constructor ()
      ensures next == map[] && !end
    {
      next, end := map[], false;
    }
  }

  function Front(p: Tokens): Tokens
    requires p != []
  {
    p[..|p| - 1]
  }

  function Back(p: Tokens): string
    requires p != []
  {
    p[|p| - 1]
  }

  /** What a node holds. */
  datatype Shape = Shape(next: map<string, Node>, end: bool)

  /** A path's last token leads from the node of the path before it. */
  ghost predicate Linked(at: map<Tokens, Node>, view: map<Tokens, Shape>, p: Tokens)
    requires p in at && p != []
  {
    Front(p) in view && Back(p) in view[Front(p)].next && view[Front(p)].next[Back(p)] == at[p]
  }

  /** The nodes are the prefixes of what was added, each reached by its own path alone. */
  ghost predicate Tree(at: map<Tokens, Node>, view: map<Tokens, Shape>) {
    && at.Keys == view.Keys && [] in at
    && (forall p :: p in at && p != [] ==> Linked(at, view, p))
    && (forall p, k :: p in view && k in view[p].next ==> p + [k] in at)
    && OneNodeEach(at)
  }

  ghost predicate OneNodeEach(at: map<Tokens, Node>) {
    forall p, q :: p in at && q in at && at[p] == at[q] ==> p == q
  }

  lemma Snoc(p: Tokens, key: string)
    ensures Front(p + [key]) == p && Back(p + [key]) == key && p + [key] != []
  {
  }

  lemma NotYet(at: map<Tokens, Node>, view: map<Tokens, Shape>, p: Tokens, key: string)
    requires Tree(at, view) && p in view && key !in view[p].next
    ensures p + [key] !in at && p + [key] !in view && p + [key] != p
  {
    Snoc(p, key);
    assert p + [key] in at ==> Linked(at, view, p + [key]);
  }

  function Grown(view: map<Tokens, Shape>, p: Tokens, key: string, u: Node): map<Tokens, Shape>
    requires p in view
  {
    view[p := Shape(view[p].next[key := u], view[p].end)][p + [key] := Shape(map[], false)]
  }

  lemma GrownLinked(at: map<Tokens, Node>, view: map<Tokens, Shape>, p: Tokens, key: string, u: Node, r: Tokens)
    requires Tree(at, view) && p in view && key !in view[p].next && r in at[p + [key] := u] && r != []
    ensures Linked(at[p + [key] := u], Grown(view, p, key, u), r)
  {
    NotYet(at, view, p, key);
    Snoc(p, key);
    if r != p + [key] {
      assert Linked(at, view, r);
      hide Tree;
      assert Front(r) != p + [key];
    }
  }

  lemma GrownClosed(at: map<Tokens, Node>, view: map<Tokens, Shape>, p: Tokens, key: string, u: Node, r: Tokens,
                    k: string)
    requires Tree(at, view) && p in view && key !in view[p].next
    requires r in Grown(view, p, key, u) && k in Grown(view, p, key, u)[r].next
    ensures r + [k] in at[p + [key] := u]
  {
    NotYet(at, view, p, key);
    assert r != p + [key];
    assert r in view && (k in view[r].next || (r == p && k == key));
  }

  /** A new node under a token that led nowhere. */
  lemma GrowKeeps(at: map<Tokens, Node>, view: map<Tokens, Shape>, p: Tokens, key: string, u: Node)
    requires Tree(at, view) && p in view && key !in view[p].next && forall q :: q in at ==> at[q] != u
    ensures Tree(at[p + [key] := u], Grown(view, p, key, u))
  {
    hide Linked, Grown;
    var at', view' := at[p + [key] := u], Grown(view, p, key, u);
    GrownKeys(view, p, key, u);
    GrownApart(at, view, p + [key], u);
    forall r | r in at' && r != [] ensures Linked(at', view', r) { GrownLinked(at, view, p, key, u, r); }
    forall r, k | r in view' && k in view'[r].next ensures r + [k] in at' { GrownClosed(at, view, p, key, u, r, k); }
  }

  lemma GrownApart(at: map<Tokens, Node>, view: map<Tokens, Shape>, q: Tokens, u: Node)
    requires Tree(at, view) && forall p :: p in at ==> at[p] != u
    ensures [] in at[q := u] && at[q := u].Keys == view.Keys + {q}
    ensures OneNodeEach(at[q := u])
  {
    hide Linked;
  }

  lemma GrownIs(view: map<Tokens, Shape>, p: Tokens, key: string, u: Node)
    requires p in view && p + [key] != p
    ensures Grown(view, p, key, u).Keys == view.Keys + {p + [key]}
    ensures Grown(view, p, key, u)[p] == Shape(view[p].next[key := u], view[p].end)
    ensures Grown(view, p, key, u)[p + [key]] == Shape(map[], false)
    ensures forall q :: q in view && q != p && q != p + [key] ==> Grown(view, p, key, u)[q] == view[q]
  {
  }

  lemma GrownKeys(view: map<Tokens, Shape>, p: Tokens, key: string, u: Node)
    requires p in view
    ensures Grown(view, p, key, u).Keys == view.Keys + {p + [key]}
  {
  }

  ghost function NamesOf(view: map<Tokens, Shape>): set<Tokens> { set p | p in view && view[p].end }

  lemma GrownNames(view: map<Tokens, Shape>, p: Tokens, key: string, u: Node)
    requires p in view && p + [key] !in view
    ensures NamesOf(Grown(view, p, key, u)) == NamesOf(view)
  {
  }

  lemma EndNames(view: map<Tokens, Shape>, p: Tokens)
    requires p in view
    ensures NamesOf(view[p := view[p].(end := true)]) == NamesOf(view) + {p}
  {
  }

  /** Each node belongs to one path. */
  lemma OnePath(at: map<Tokens, Node>, view: map<Tokens, Shape>, p: Tokens)
    requires Tree(at, view) && p in at
    ensures forall q :: q in at && q != p ==> at[q] != at[p]
  {
  }

  lemma FollowLink(at: map<Tokens, Node>, view: map<Tokens, Shape>, p: Tokens, key: string)
    requires Tree(at, view) && p in view && key in view[p].next
    ensures p + [key] in at && at[p + [key]] == view[p].next[key]
  {
    Snoc(p, key);
    assert Linked(at, view, p + [key]);
  }

  lemma EndKeeps(at: map<Tokens, Node>, view: map<Tokens, Shape>, p: Tokens)
    requires Tree(at, view) && p in view
    ensures Tree(at, view[p := view[p].(end := true)])
  {
    var view' := view[p := view[p].(end := true)];
    forall r | r in at && r != [] ensures Linked(at, view', r) { assert Linked(at, view, r); }
  }

  /** Every prefix of a path is a path. */
  lemma {:induction false} PrefixIn(at: map<Tokens, Node>, view: map<Tokens, Shape>, p: Tokens, n: nat)
    requires Tree(at, view) && p in at && n <= |p|
    ensures p[..n] in at
  {
    if n < |p| {
      assert Linked(at, view, p);
      PrefixIn(at, view, Front(p), n);
      assert Front(p)[..n] == p[..n];
    } else {
      assert p[..n] == p;
    }
  }

  class Trie {
    const root: Node
    // Every node, by the path that leads to it.
    ghost var at: map<Tokens, Node>
    ghost var nodes: set<Node>

    ghost predicate Owned()
      reads this
    {
      forall p :: p in at ==> at[p] in nodes
    }

    ghost function View(): map<Tokens, Shape>
      requires Owned()
      reads this, nodes
    {
      map p | p in at :: Shape(at[p].next, at[p].end)
    }

    ghost predicate Valid()
      reads this, nodes
    {
      Owned() && Tree(at, View()) && at[[]] == root
    }

    /** The known names: the paths that end a name. */
    ghost function Names(): set<Tokens>
      requires Owned()
      reads this, nodes
    {
      NamesOf(View())
    }

    constructor ()
      ensures Valid() && Names() == {} && fresh(nodes)
    {
      var r := new Node();
      root := r;
      at := map[[] := r];
      nodes := {r};
    }

    method Grow(t: Node, ghost p: Tokens, key: string) returns (u: Node)
      requires Valid() && p in at && at[p] == t && key !in t.next
      modifies this, t
      ensures Valid() && p + [key] in at && at[p + [key]] == u
      ensures Names() == old(Names())
      ensures old(nodes) <= nodes && fresh(nodes - old(nodes))
    {
      hide Tree, NamesOf, Grown;
      u := new Node();
      ghost var view := View();
      GrowKeeps(at, view, p, key, u);
      NotYet(at, view, p, key);
      OnePath(at, view, p);
      GrownNames(view, p, key, u);
      t.next := t.next[key := u];
      at := at[p + [key] := u];
      nodes := nodes + {u};
      GrownIs(view, p, key, u);
      forall q | q in at ensures Shape(at[q].next, at[q].end) == Grown(view, p, key, u)[q] {
        if q != p && q != p + [key] { assert view[q] == Shape(at[q].next, at[q].end); }
      }
      assert View() == Grown(view, p, key, u);
    }

    /** One more token of the path: the node it leads to, made if it is missing. */
    method Step(t: Node, ghost p: Tokens, key: string) returns (u: Node)
      requires Valid() && p in at && at[p] == t
      modifies this, t
      ensures Valid() && p + [key] in at && at[p + [key]] == u
      ensures Names() == old(Names())
      ensures old(nodes) <= nodes && fresh(nodes - old(nodes))
    {
      hide Tree, Names;
      if key !in t.next {
        u := Grow(t, p, key);
      } else {
        FollowLink(at, View(), p, key);
        u := t.next[key];
      }
    }

    method SetEnd(t: Node, ghost p: Tokens)
      requires Valid() && p in at && at[p] == t
      modifies t
      ensures Valid() && Names() == old(Names()) + {p}
    {
      hide Tree, NamesOf;
      ghost var view := View();
      EndKeeps(at, view, p);
      OnePath(at, view, p);
      EndNames(view, p);
      t.end := true;
      assert View() == view[p := view[p].(end := true)];
    }

    /** Makes the tokens a known name. */
    method Add(keys: Tokens)
      requires Valid()
      modifies this, nodes
      ensures Valid() && fresh(nodes - old(nodes))
      ensures Names() == old(Names()) + {keys}
    {
      hide Tree, Names, View;
      var t := root;
      assert keys[..0] == [];
      RootIn();
      for i := 0 to |keys|
        invariant Valid() && keys[..i] in at && at[keys[..i]] == t
        invariant Names() == old(Names())
        invariant old(nodes) <= nodes && fresh(nodes - old(nodes))
      {
        assert keys[..i + 1] == keys[..i] + [keys[i]];
        t := Step(t, keys[..i], keys[i]);
      }
      assert keys[..|keys|] == keys;
      SetEnd(t, keys);
    }

    lemma RootIn()
      requires Valid()
      ensures [] in at
    {
    }
  
    /** Walks from the root along words[i..], remembering the last acceptable name passed. */
    method FindLongest(words: Tokens, i: nat, ok: nat -> bool) returns (n: nat)
      requires Valid() && i <= |words|
      ensures n == Longest(Names(), words, i, |words| - i, ok)
    {
      hide Tree, Names, View;
      var j, t := i, root;
      n := 0;
      assert words[i..i] == [];
      RootIn();
      while j < |words| && words[j] in t.next
        invariant i <= j <= |words| && words[i..j] in at && at[words[i..j]] == t
        invariant n == Longest(Names(), words, i, j - i, ok)
      {
        assert words[i..j + 1] == words[i..j] + [words[j]];
        Follow(words[i..j], words[j]);
        t := t.next[words[j]];
        j := j + 1;
        KnownAt(words[i..j]);
        if t.end && ok(j - i) { n := j - i; }
      }
      forall m | j - i < m <= |words| - i ensures !KnownHere(Names(), words, i, m) { DeadEnd(words, i, j, m); }
      LongestShort(Names(), words, i, j - i, |words| - i, ok);
    }

    lemma Follow(p: Tokens, key: string)
      requires Valid() && p in at && key in at[p].next
      ensures p + [key] in at && at[p + [key]] == at[p].next[key]
    {
      FollowLink(at, View(), p, key);
    }

    lemma KnownAt(p: Tokens)
      requires Valid() && p in at
      ensures at[p].end <==> p in Names()
    {
    }

    /** Where the walk stops, no known name goes on. */
    lemma DeadEnd(words: Tokens, i: nat, j: nat, m: nat)
      requires Valid() && i <= j < |words| && words[i..j] in at && words[j] !in at[words[i..j]].next
      requires j - i < m <= |words| - i
      ensures !KnownHere(Names(), words, i, m)
    {
      hide Tree;
      var p := words[i..i + m];
      NotYet(at, View(), words[i..j], words[j]);
      assert p[..j - i + 1] == words[i..j] + [words[j]];
      if p in at { PrefixIn(at, View(), p, j - i + 1); }
      assert p !in at;
    }
  }

  /** A known name of k tokens stands at i. */
  ghost predicate KnownHere(names: set<Tokens>, words: Tokens, i: nat, k: nat) {
    i + k <= |words| && words[i..i + k] in names
  }

  /** The longest acceptable known name of at most m tokens that words[i..] starts with, as a plain search finds it. */
  ghost function Longest(names: set<Tokens>, words: Tokens, i: nat, m: nat, ok: nat -> bool): (n: nat)
    requires i + m <= |words|
    ensures n <= m
    ensures n > 0 ==> KnownHere(names, words, i, n) && ok(n)
  {
    if m == 0 then 0
    else if KnownHere(names, words, i, m) && ok(m) then m
    else Longest(names, words, i, m - 1, ok)
  }

  /** It is the longest: nothing acceptable and known is longer. */
  lemma {:induction false} LongestIsLongest(names: set<Tokens>, words: Tokens, i: nat, m: nat, ok: nat -> bool, k: nat)
    requires i + m <= |words| && Longest(names, words, i, m, ok) < k <= m
    ensures !(KnownHere(names, words, i, k) && ok(k))
  {
    hide KnownHere;
    if k < m { LongestIsLongest(names, words, i, m - 1, ok, k); }
  }

  lemma {:induction false} LongestShort(names: set<Tokens>, words: Tokens, i: nat, m: nat, m': nat, ok: nat -> bool)
    requires m <= m' && i + m' <= |words| && forall k :: m < k <= m' ==> !KnownHere(names, words, i, k)
    ensures Longest(names, words, i, m', ok) == Longest(names, words, i, m, ok)
    decreases m'
  {
    hide KnownHere;
    if m < m' { LongestShort(names, words, i, m, m' - 1, ok); }
  }
}
