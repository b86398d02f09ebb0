/**
 The user table of hev-socks5-authenticator.c: an intrusive tree ordered by name length, then name bytes.
 */
module Authenticator {
  import opened Bytes
  import opened Powers
  import opened RBShape
  import opened RBInsert
  import opened RBUnlink
  import opened RBTree
  import opened Sorted

  datatype User = User(name: Octets, pass: Octets)

  /** hev_socks5_user_checker. */
  function Check(user: User, pass: Octets): int {
    if |user.pass| != |pass| then -1 else if Memcmp(user.pass, pass) != 0 then -1 else 0
  }

  lemma CheckIsEquality(user: User, pass: Octets)
    ensures Check(user, pass) == 0 <==> user.pass == pass
  {
    if |user.pass| == |pass| {
      MemcmpOrder(user.pass, pass, pass);
    }
  }

  function ByName(u: User, v: User): int { LengthThenBytes(u.name, v.name) }

  /** Names strictly fall from left to right. */
  ghost predicate Falling(s: seq<Node<User>>) { SortedBy(ByName, s) }

  /** The table a sequence of user nodes stands for. */
  ghost function TableOf(s: seq<Node<User>>): map<Octets, User> {
    if s == [] then map[] else TableOf(s[1..])[s[0].entry.name := s[0].entry]
  }

  /** `k` is the name of some node of `s`. */
  ghost predicate Has(s: seq<Node<User>>, k: Octets) {
    exists i :: 0 <= i < |s| && s[i].entry.name == k
  }

  lemma {:induction false} TableSpec(s: seq<Node<User>>)
    requires Falling(s)
    ensures forall k :: k in TableOf(s) <==> Has(s, k)
    ensures forall i :: 0 <= i < |s| ==> s[i].entry.name in TableOf(s) && TableOf(s)[s[i].entry.name] == s[i].entry
  {
    hide LengthThenBytes;
    if s != [] {
      var r := s[1..];
      assert forall i :: 0 <= i < |r| ==> r[i] == s[i + 1];
      TableSpec(r);
      forall i | 1 <= i < |s| ensures s[i].entry.name != s[0].entry.name {
        LengthThenBytesOrder(s[0].entry.name, s[i].entry.name, s[i].entry.name);
      }
      forall i | 0 <= i < |s| ensures s[i].entry.name in TableOf(s) && TableOf(s)[s[i].entry.name] == s[i].entry {
        if i > 0 { assert r[i - 1] == s[i]; }
      }
      forall k ensures k in TableOf(s) <==> Has(s, k) {
        if k in TableOf(s) && k != s[0].entry.name {
          assert Has(r, k);
          var i :| 0 <= i < |r| && r[i].entry.name == k;
          assert s[i + 1].entry.name == k;
        }
      }
    }
  }

  lemma NodeEntry(s: seq<Node<User>>, n: Node<User>)
    requires Falling(s) && n in s
    ensures n.entry.name in TableOf(s) && TableOf(s)[n.entry.name] == n.entry
  {
    TableSpec(s);
    var i :| 0 <= i < |s| && s[i] == n;
  }

  lemma SortedMeansDescending(s: seq<Node<User>>, name: Octets)
    requires Falling(s)
    ensures Descending((u: User) => LengthThenBytes(u.name, name), s)
  {
    forall i, j | 0 <= i < j < |s| && LengthThenBytes(s[i].entry.name, name) <= 0
      ensures LengthThenBytes(s[j].entry.name, name) < 0
    {
      LengthThenBytesOrder(s[j].entry.name, s[i].entry.name, name);
    }
  }

  lemma {:induction false} TableInsert(a: seq<Node<User>>, n: Node<User>, b: seq<Node<User>>)
    requires forall i :: 0 <= i < |a| ==> a[i].entry.name != n.entry.name
    ensures TableOf(a + [n] + b) == TableOf(a + b)[n.entry.name := n.entry]
  {
    if a == [] {
      assert a + [n] + b == [n] + b && a + b == b;
    } else {
      var r := a[1..];
      TableInsert(r, n, b);
      assert (a + [n] + b)[1..] == r + [n] + b && (a + b)[1..] == r + b;
    }
  }

  lemma SortedApart(a: seq<Node<User>>, n: Node<User>, b: seq<Node<User>>)
    requires Falling(a + [n] + b)
    ensures !Has(a + b, n.entry.name)
  {
    SortedRemove(ByName, a, n, b);
    hide LengthThenBytes;
    var t := a + b;
    forall i | 0 <= i < |t| ensures t[i].entry.name != n.entry.name {
      assert t[i] == if i < |a| then a[i] else b[i - |a|];
      LengthThenBytesOrder(n.entry.name, n.entry.name, n.entry.name);
    }
  }

  lemma TableRemove(s: seq<Node<User>>, n: Node<User>)
    requires Falling(s) && n in s
    ensures Falling(Without(s, n)) && TableOf(Without(s, n)) == TableOf(s) - {n.entry.name}
  {
    var k :| 0 <= k < |s| && s[k] == n;
    hide Falling, TableOf, Without;
    assert s == s[..k] + [n] + s[k + 1..];
    TableRemoveAt(s[..k], n, s[k + 1..]);
  }

  lemma TableRemoveAt(a: seq<Node<User>>, n: Node<User>, b: seq<Node<User>>)
    requires Falling(a + [n] + b)
    ensures Without(a + [n] + b, n) == a + b && Falling(a + b)
    ensures TableOf(a + b) == TableOf(a + [n] + b) - {n.entry.name}
  {
    hide SortedBy, TableOf, Has, Without;
    SortedRemove(ByName, a, n, b);
    SortedApart(a, n, b);
    NotHere(a, b, n);
    WithoutAround(a, n, b);
    TableInsert(a, n, b);
    assert n.entry.name !in TableOf(a + b) by { TableSpec(a + b); }
    UndoUpdate(TableOf(a + b), n.entry.name, n.entry);
  }

  lemma UndoUpdate(t: map<Octets, User>, k: Octets, u: User)
    requires k !in t
    ensures t[k := u] - {k} == t
  {
  }

  lemma NotHere(a: seq<Node<User>>, b: seq<Node<User>>, n: Node<User>)
    requires !Has(a + b, n.entry.name)
    ensures n !in a && n !in b && forall i :: 0 <= i < |a| ==> a[i].entry.name != n.entry.name
  {
    assert forall i :: 0 <= i < |a| ==> (a + b)[i] == a[i];
    assert forall i :: 0 <= i < |b| ==> (a + b)[|a| + i] == b[i];
  }

  class Authenticator {
    const tree: RBTree<User>

    ghost predicate Valid()
      reads tree, S(tree.shape)
    {
      tree.Valid() && Falling(tree.Nodes())
    }

    /** What the table means: a finite map from names to users. */
    ghost function Table(): map<Octets, User>
      reads tree
    {
      TableOf(tree.Nodes())
    }

    constructor ()
      ensures Valid() && Table() == map[] && fresh(tree)
    {
      tree := new RBTree();
    }

    /** Add `user`, unless its name is taken. */
    method Add(user: Node<User>) returns (res: int)
      requires Valid()
      modifies tree, S(tree.shape), user
      ensures Valid()
      ensures res == if user.entry.name in old(Table()) then -1 else 0
      ensures Table() == if res == 0 then old(Table())[user.entry.name := user.entry] else old(Table())
      ensures S(tree.shape) == old(S(tree.shape)) + if res == 0 then {user} else {}
    {
      hide S, Rep, HoleRep, Distinct, RedBlack, InOrder, Before, After, Plug, TableOf, Falling, Descending,
           LengthThenBytes;
      var name := user.entry.name;
      SortedMeansDescending(tree.Nodes(), name);
      var found, parent, left;
      ghost var z, visited;
      found, parent, left, z, visited := tree.Descend((u: User) => LengthThenBytes(u.name, name));
      if found != null {
        LengthThenBytesOrder(found.entry.name, name, name);
        Listed(tree.shape);
        NodeEntry(tree.Nodes(), found);
        return -1;
      }
      if user in S(tree.shape) {
        Listed(tree.shape);
        NodeEntry(tree.Nodes(), user);
        AbsentName(tree.shape, z, name);
        assert false;
      }
      tree.Insert(user, parent, left, z);
      FallingInsert(Before(z), user, After(z));
      SortedApart(Before(z), user, After(z));
      TableSpec(Before(z) + After(z));
      assert forall i :: 0 <= i < |Before(z)| ==> (Before(z) + After(z))[i] == Before(z)[i];
      TableInsert(Before(z), user, After(z));
      res := 0;
    }

    /** The user called `name`; the search visits at most 2*log2(n+1) nodes. */
    method Get(name: Octets) returns (user: Node?<User>, ghost visited: nat, ghost k: nat)
      requires Valid()
      ensures Valid()
      ensures user != null <==> name in Table()
      ensures user != null ==> user in S(tree.shape) && user.entry == Table()[name] && user.entry.name == name
      ensures visited <= 2 * k && Pow2(k) <= |tree.Nodes()| + 1
    {
      hide S, Rep, HoleRep, Distinct, RedBlack, InOrder, Before, After, Plug, TableOf, Falling, Descending,
           LengthThenBytes;
      SortedMeansDescending(tree.Nodes(), name);
      k := HeightBound(tree.shape);
      var parent, left;
      ghost var z;
      user, parent, left, z, visited := tree.Descend((u: User) => LengthThenBytes(u.name, name));
      if user != null {
        LengthThenBytesOrder(user.entry.name, name, name);
        Listed(tree.shape);
        NodeEntry(tree.Nodes(), user);
      } else {
        AbsentName(tree.shape, z, name);
      }
    }

    /** Remove the user called `name`, if there is one. */
    method Del(name: Octets) returns (res: int)
      requires Valid()
      modifies tree, S(tree.shape)
      ensures Valid()
      ensures res == if name in old(Table()) then 0 else -1
      ensures Table() == old(Table()) - {name}
      ensures S(tree.shape) <= old(S(tree.shape))
    {
      hide S, Rep, HoleRep, Distinct, RedBlack, InOrder, Before, After, Plug, TableOf, Falling, Descending,
           LengthThenBytes;
      ghost var before := tree.Nodes();
      var user;
      ghost var visited, k;
      user, visited, k := Get(name);
      if user == null {
        return -1;
      }
      Listed(tree.shape);
      tree.Erase(user);
      TableRemove(before, user);
      res := 0;
    }

    /** Remove every user. */
    method Clear()
      requires Valid()
      modifies tree, S(tree.shape)
      ensures Valid() && Table() == map[] && tree.Nodes() == []
    {
      hide S, Rep, HoleRep, Distinct, RedBlack, InOrder, TableOf, Falling;
      while true
        invariant Valid() && S(tree.shape) <= old(S(tree.shape))
        decreases |tree.Nodes()|
      {
        ghost var before := tree.Nodes();
        var n := tree.First();
        if n == null { break; }
        Listed(tree.shape);
        TableRemove(before, n);
        WithoutShorter<Node<User>>(before, n);
        tree.Erase(n);
      }
      EmptyTable();
    }
  }

  lemma FallingInsert(a: seq<Node<User>>, n: Node<User>, b: seq<Node<User>>)
    requires Falling(a + b)
    requires forall i :: 0 <= i < |a| ==> LengthThenBytes(a[i].entry.name, n.entry.name) > 0
    requires forall i :: 0 <= i < |b| ==> LengthThenBytes(b[i].entry.name, n.entry.name) < 0
    ensures Falling(a + [n] + b)
  {
    hide LengthThenBytes;
    forall i | 0 <= i < |b| ensures ByName(n.entry, b[i].entry) > 0 {
      LengthThenBytesOrder(b[i].entry.name, n.entry.name, n.entry.name);
    }
    SortedInsert(ByName, a, n, b);
  }

  lemma EmptyTable()
    ensures TableOf([]) == map[]
  {
  }

  lemma {:induction false} WithoutShorter<A>(s: seq<A>, x: A)
    ensures |Without(s, x)| <= |s| && (x in s ==> |Without(s, x)| < |s|)
  {
    if s != [] {
      WithoutShorter(s[1..], x);
    }
  }

  /** No node on either side of the place where `name` belongs carries that name. */
  lemma AbsentName(shape: Tree<User>, z: Ctx<User>, name: Octets)
    requires Plug(z, Leaf) == shape && Falling(InOrder(shape))
    requires AllPositive((u: User) => LengthThenBytes(u.name, name), Before(z))
    requires AllNegative((u: User) => LengthThenBytes(u.name, name), After(z))
    ensures name !in TableOf(InOrder(shape))
  {
    hide Falling, TableOf, LengthThenBytes, Before, After, InOrder, Plug, Has;
    PlugOrder(z, Leaf);
    var s := InOrder(shape);
    assert InOrder<User>(Leaf) == [] by { LeafOrder<User>(Leaf); }
    assert s == Before(z) + After(z);
    LengthThenBytesOrder(name, name, name);
    forall i | 0 <= i < |s| ensures s[i].entry.name != name {
      assert if i < |Before(z)| then s[i] == Before(z)[i] else s[i] == After(z)[i - |Before(z)|];
    }
    NotNamed(s, name);
    TableSpec(s);
  }

  lemma NotNamed(s: seq<Node<User>>, name: Octets)
    requires forall i :: 0 <= i < |s| ==> s[i].entry.name != name
    ensures !Has(s, name)
  {
  }
}
