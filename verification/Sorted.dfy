/**
 Sequences of tree nodes that strictly fall in some order of their entries. Both users of the tree descend to the
 left when a node is smaller than the key, so from left to right their keys fall.
 */
module Sorted {
  import opened RBShape

  ghost predicate SortedBy<T>(ord: (T, T) -> int, s: seq<Node<T>>) {
    forall i, j :: 0 <= i < j < |s| ==> ord(s[i].entry, s[j].entry) > 0
  }

  lemma SortedInsert<T>(ord: (T, T) -> int, a: seq<Node<T>>, n: Node<T>, b: seq<Node<T>>)
    requires SortedBy(ord, a + b)
    requires forall i :: 0 <= i < |a| ==> ord(a[i].entry, n.entry) > 0
    requires forall i :: 0 <= i < |b| ==> ord(n.entry, b[i].entry) > 0
    ensures SortedBy(ord, a + [n] + b)
  {
    var s, t := a + [n] + b, a + b;
    forall i, j | 0 <= i < j < |s| ensures ord(s[i].entry, s[j].entry) > 0 {
      if i == |a| {
        assert s[j] == b[j - |a| - 1];
      } else if j == |a| {
        assert s[i] == a[i];
      } else {
        assert t[if i < |a| then i else i - 1] == s[i] && t[if j < |a| then j else j - 1] == s[j];
      }
    }
  }

  lemma SortedRemove<T>(ord: (T, T) -> int, a: seq<Node<T>>, n: Node<T>, b: seq<Node<T>>)
    requires SortedBy(ord, a + [n] + b)
    ensures SortedBy(ord, a + b)
    ensures forall i :: 0 <= i < |a| ==> ord(a[i].entry, n.entry) > 0
    ensures forall i :: 0 <= i < |b| ==> ord(n.entry, b[i].entry) > 0
  {
    var s, t := a + [n] + b, a + b;
    assert s[|a|] == n;
    assert forall i :: 0 <= i < |a| ==> s[i] == a[i];
    assert forall i :: 0 <= i < |b| ==> s[|a| + 1 + i] == b[i];
    forall i, j | 0 <= i < j < |t| ensures ord(t[i].entry, t[j].entry) > 0 {
      assert s[if i < |a| then i else i + 1] == t[i] && s[if j < |a| then j else j + 1] == t[j];
    }
  }
}
