/**
 * The `collections` module of the page editor's and file picker's script
 * utilities: a doubly linked list with a head and a tail sentinel, its
 * forward and descending iterators, and a string-keyed dictionary.
 *
 * A list node's `value` is `None` exactly for the two sentinels (JavaScript's
 * `null`); the iterators recognise the ends of the list by that `None`.
 */
module Collections {
  import opened Wrappers

  /** One node of a list (`LinkElement`); a new node is unlinked and holds `null`. */
  class LinkElement<E> {
    var previous: LinkElement?<E>
    var next: LinkElement?<E>
    var value: Option<E>

    constructor ()
      ensures previous == null && next == null && value == None
    {
      previous := null;
      next := null;
      value := None;
    }
  }

  /**
   * Index of the node that `LinkedList.remove(e)` unlinks when given a value:
   * the first element equal to `e`, or the last element when none is.
   */
  function RemovalIndex<E(==)>(s: seq<E>, e: E): (j: nat)
    requires |s| > 0
    ensures j < |s|
    ensures forall q :: 0 <= q < j ==> s[q] != e
    ensures s[j] == e || (j == |s| - 1 && e !in s)
  {
    if s[0] == e || |s| == 1 then 0 else 1 + RemovalIndex(s[1..], e)
  }

  /**
   * The list. `Nodes` is the chain from the head sentinel to the tail
   * sentinel; `Contents` are the values of the nodes between them.
   */
  class LinkedList<E(==)> {
    var first: LinkElement<E>
    var last: LinkElement<E>
    var length: int

    ghost var Nodes: seq<LinkElement<E>>
    ghost var Contents: seq<E>
    ghost var Repr: set<object>
    /** The position of each node on the chain; it keeps the nodes distinct. */
    ghost var Index: map<LinkElement<E>, nat>

    ghost predicate Valid()
      reads this, Repr
      ensures Valid() ==> this in Repr
    {
      this in Repr && Chain()
    }

    /** The chain of nodes from `first` to `last`, its values and the length. */
    ghost predicate Chain()
      reads this, Repr
    {
      && |Nodes| == |Contents| + 2
      && Nodes[0] == first && Nodes[|Nodes| - 1] == last
      && (forall i :: 0 <= i < |Nodes| ==> Link(i))
      && length == |Contents|
    }

    /**
     * Node `i` of the chain belongs to the list, sits at position `i`, points
     * at its neighbours (`null` past either end) and holds element `i - 1`,
     * or `null` for the two sentinels.
     */
    ghost predicate Link(i: int)
      requires 0 <= i < |Nodes| && |Nodes| == |Contents| + 2
      reads this, Repr
    {
      && Nodes[i] in Repr
      && Nodes[i] in Index && Index[Nodes[i]] == i
      && (if i < |Nodes| - 1 then Nodes[i].next == Nodes[i + 1] else Nodes[i].next == null)
      && (if 0 < i then Nodes[i].previous == Nodes[i - 1] else Nodes[i].previous == null)
      && Nodes[i].value == (if 0 < i < |Nodes| - 1 then Some(Contents[i - 1]) else None)
    }

    /** The positions of the nodes of a chain whose nodes are distinct. */
    static ghost function Positions(ns: seq<LinkElement<E>>): (m: map<LinkElement<E>, nat>)
      requires forall i, j :: 0 <= i < j < |ns| ==> ns[i] != ns[j]
      ensures forall i :: 0 <= i < |ns| ==> ns[i] in m && m[ns[i]] == i
    {
      if ns == [] then map[] else Positions(ns[..|ns| - 1])[ns[|ns| - 1] := |ns| - 1]
    }

    /** The chain invariant spelt out link by link, for proofs that rebuild it. */
    lemma Expand()
      requires Valid()
      ensures forall i :: 0 <= i < |Nodes| ==> Nodes[i] in Repr && Nodes[i] in Index && Index[Nodes[i]] == i
      ensures forall i, j :: 0 <= i < j < |Nodes| ==> Nodes[i] != Nodes[j]
      ensures forall i :: 0 <= i < |Nodes| - 1 ==> Nodes[i].next == Nodes[i + 1]
      ensures forall i :: 0 < i < |Nodes| ==> Nodes[i].previous == Nodes[i - 1]
      ensures forall i :: 0 <= i < |Contents| ==> Nodes[i + 1].value == Some(Contents[i])
      ensures first.previous == null && last.next == null && first.value == None && last.value == None
    {
      forall i | 0 <= i < |Nodes| ensures Nodes[i] in Repr && Nodes[i] in Index && Index[Nodes[i]] == i {
        assert Link(i);
      }
      forall i, j | 0 <= i < j < |Nodes| ensures Nodes[i] != Nodes[j] {
        assert Link(i) && Link(j);
      }
      forall i | 0 <= i < |Nodes| - 1 ensures Nodes[i].next == Nodes[i + 1] {
        assert Link(i);
      }
      forall i | 0 < i < |Nodes| ensures Nodes[i].previous == Nodes[i - 1] {
        assert Link(i);
      }
      forall i | 0 <= i < |Contents| ensures Nodes[i + 1].value == Some(Contents[i]) {
        assert Link(i + 1);
      }
      assert Link(0) && Link(|Nodes| - 1);
    }

    /** The converse of `Expand`: links that hold one by one make up the chain. */
    lemma Collapse()
      requires this in Repr && |Nodes| == |Contents| + 2 && length == |Contents|
      requires Nodes[0] == first && Nodes[|Nodes| - 1] == last
      requires forall i :: 0 <= i < |Nodes| ==> Nodes[i] in Repr && Nodes[i] in Index && Index[Nodes[i]] == i
      requires forall i :: 0 <= i < |Nodes| - 1 ==> Nodes[i].next == Nodes[i + 1]
      requires forall i :: 0 < i < |Nodes| ==> Nodes[i].previous == Nodes[i - 1]
      requires forall i :: 0 <= i < |Contents| ==> Nodes[i + 1].value == Some(Contents[i])
      requires first.previous == null && last.next == null && first.value == None && last.value == None
      ensures Valid()
    {
      forall i | 0 <= i < |Nodes| ensures Link(i) {
        if 0 < i < |Nodes| - 1 {
          assert Nodes[(i - 1) + 1].value == Some(Contents[i - 1]);
        }
      }
    }

    /** A new list: the two sentinels linked only to each other, length 0. */
    constructor ()
      ensures Valid() && fresh(Repr)
      ensures Contents == [] && length == 0
      ensures first.next == last && last.previous == first
    {
      length := 0;
      var elm1 := new LinkElement<E>();
      var elm2 := new LinkElement<E>();
      elm1.next := elm2;
      elm2.previous := elm1;
      first := elm1;
      last := elm2;
      Nodes := [elm1, elm2];
      Contents := [];
      Repr := {this, elm1, elm2};
      Index := map[elm1 := 0, elm2 := 1];
    }

    /** `length()`. */
    method Length() returns (n: int)
      requires Valid()
      ensures n == |Contents|
    {
      n := length;
    }

    /** `add(e)`: links a new node just before the tail sentinel. */
    method Add(e: E)
      requires Valid()
      modifies Repr
      ensures Valid() && fresh(Repr - old(Repr))
      ensures Contents == old(Contents) + [e]
      ensures first == old(first) && last == old(last)
      ensures Nodes == old(Nodes)[..|old(Nodes)| - 1] + [Nodes[|Nodes| - 2], last]
    {
      Expand();
      ghost var ns, cs := Nodes, Contents;
      assert last.previous == ns[|cs|];
      var holder := new LinkElement<E>();
      holder.value := Some(e);
      holder.next := last;
      holder.previous := last.previous;
      var before := last.previous;
      before.next := holder;
      last.previous := holder;
      length := length + 1;
      AdoptInserted(ns, cs, holder, e, |cs|);
      assert cs[..|cs|] + [e] + cs[|cs|..] == cs + [e];
      assert ns[|cs| + 1..] == [last];
    }

    /**
     * `get(e)`: walks `e` steps from the node after the head sentinel. For an
     * index equal to the length that node is the tail sentinel (`null`); a
     * larger index would walk off the chain and dereference `null`.
     */
    method Get(index: int) returns (r: Option<E>)
      requires Valid()
      requires index <= |Contents|
      ensures 0 <= index < |Contents| ==> r == Some(Contents[index])
      ensures index == |Contents| ==> r == None
      ensures index < 0 ==> r == (if Contents == [] then None else Some(Contents[0]))
    {
      Expand();
      var elm := first.next;
      var i := 0;
      while i < index
        invariant 0 <= i && (index >= 0 ==> i <= index) && (index < 0 ==> i == 0)
        invariant elm == Nodes[i + 1]
      {
        elm := elm.next;
        i := i + 1;
      }
      r := elm.value;
    }

    /**
     * `remove(k)` for a number `k`: walks `k` steps from the head sentinel
     * itself, so it unlinks the element at zero-based index `k - 1`.
     */
    method RemoveAt(k: int) returns (r: Option<E>)
      requires Valid()
      requires 1 <= k <= |Contents|
      modifies Repr
      ensures Valid() && fresh(Repr - old(Repr))
      ensures r == Some(old(Contents)[k - 1])
      ensures Contents == old(Contents)[..k - 1] + old(Contents)[k..]
    {
      Expand();
      var elm := first;
      var i := 0;
      while i < k
        invariant 0 <= i <= k
        invariant elm == Nodes[i]
      {
        elm := elm.next;
        i := i + 1;
      }
      r := elm.value;
      Unlink(elm, k);
    }

    /**
     * `remove(e)` for a value `e`: walks from the head sentinel until the
     * node's value is `e` or the next node is the tail sentinel, and unlinks
     * where it stopped.
     */
    method Remove(e: E) returns (r: Option<E>)
      requires Valid()
      requires |Contents| > 0
      modifies Repr
      ensures Valid() && fresh(Repr - old(Repr))
      ensures var j := RemovalIndex(old(Contents), e);
        && r == Some(old(Contents)[j])
        && Contents == old(Contents)[..j] + old(Contents)[j + 1..]
    {
      Expand();
      ghost var j := RemovalIndex(Contents, e);
      var elm := first;
      ghost var p := 0;
      while elm.next.value != None && elm.value != Some(e)
        invariant 0 <= p <= j + 1 <= |Contents|
        invariant elm == Nodes[p] && elm.next == Nodes[p + 1]
        invariant p <= j ==> elm.next.value == Some(Contents[p])
        invariant 0 < p <= j ==> elm.value == Some(Contents[p - 1]) && Contents[p - 1] != e
        decreases j + 1 - p
      {
        elm := elm.next;
        p := p + 1;
      }
      assert p == j + 1;
      r := elm.value;
      Unlink(elm, p);
    }

    /**
     * The linking done by an iterator's `insert(e)`: a new node holding `e`
     * goes right after `cur`, the node at position `k` of the chain, and the
     * length grows by one.
     */
    method LinkAfter(cur: LinkElement<E>, ghost k: nat, e: E)
      requires Valid()
      requires k <= |Contents| && Nodes[k] == cur
      modifies Repr
      ensures Valid() && fresh(Repr - old(Repr))
      ensures |Nodes| == old(|Nodes|) + 1
      ensures Nodes == old(Nodes[..k + 1]) + [Nodes[k + 1]] + old(Nodes[k + 1..])
      ensures Contents == old(Contents[..k]) + [e] + old(Contents[k..])
    {
      Expand();
      ghost var ns, cs := Nodes, Contents;
      var after := cur.next;
      assert after == ns[k + 1];
      var holder := new LinkElement<E>();
      holder.value := Some(e);
      holder.previous := cur;
      holder.next := after;
      cur.next := holder;
      after.previous := holder;
      length := length + 1;
      AdoptInserted(ns, cs, holder, e, k);
    }

    /**
     * The ghost bookkeeping of `LinkAfter`: once `holder`, holding `e`, is
     * linked between positions `k` and `k + 1` of the former chain `ns`,
     * the chain and contents take it in and the invariant holds again.
     */
    ghost method AdoptInserted(ns: seq<LinkElement<E>>, cs: seq<E>, holder: LinkElement<E>, e: E, k: nat)
      requires |ns| == |cs| + 2 && k <= |cs|
      requires this in Repr && holder !in ns
      requires forall i :: 0 <= i < |ns| ==> ns[i] in Repr
      requires ns[0] == first && ns[|ns| - 1] == last
      requires forall i, j :: 0 <= i < j < |ns| ==> ns[i] != ns[j]
      requires first.previous == null && last.next == null
      requires first.value == None && last.value == None
      requires forall i :: 0 <= i < |ns| - 1 && i != k ==> ns[i].next == ns[i + 1]
      requires forall i :: 0 < i < |ns| && i != k + 1 ==> ns[i].previous == ns[i - 1]
      requires ns[k].next == holder && holder.next == ns[k + 1]
      requires ns[k + 1].previous == holder && holder.previous == ns[k]
      requires forall i :: 0 <= i < |cs| ==> ns[i + 1].value == Some(cs[i])
      requires holder.value == Some(e)
      requires length == |cs| + 1
      modifies this
      ensures Valid() && Repr == old(Repr) + {holder}
      ensures Nodes == ns[..k + 1] + [holder] + ns[k + 1..]
      ensures Contents == cs[..k] + [e] + cs[k..]
    {
      var nn, nc := ns[..k + 1] + [holder] + ns[k + 1..], cs[..k] + [e] + cs[k..];
      var r := Repr + {holder};
      InsertedLinks(ns, nn, holder, k);
      InsertedDistinct(ns, nn, holder, k);
      InsertedValues(ns, cs, nn, nc, holder, e, k);
      forall i | 0 <= i < |nn| ensures nn[i] in r {
        if i <= k {
          assert nn[i] == ns[i];
        } else if i > k + 1 {
          assert nn[i] == ns[i - 1];
        }
      }
      assert nn[0] == ns[0] && nn[|nn| - 1] == ns[|ns| - 1];
      Nodes, Contents, Repr, Index := nn, nc, r, Positions(nn);
      Collapse();
    }

    /** The chain links after a node was linked in at position `k + 1`. */
    static lemma InsertedLinks(ns: seq<LinkElement<E>>, nn: seq<LinkElement<E>>, holder: LinkElement<E>, k: nat)
      requires k + 1 < |ns| && nn == ns[..k + 1] + [holder] + ns[k + 1..]
      requires forall i :: 0 <= i < |ns| - 1 && i != k ==> ns[i].next == ns[i + 1]
      requires forall i :: 0 < i < |ns| && i != k + 1 ==> ns[i].previous == ns[i - 1]
      requires ns[k].next == holder && holder.next == ns[k + 1]
      requires ns[k + 1].previous == holder && holder.previous == ns[k]
      ensures forall i :: 0 <= i < |nn| - 1 ==> nn[i].next == nn[i + 1]
      ensures forall i :: 0 < i < |nn| ==> nn[i].previous == nn[i - 1]
    {
      forall i | 0 <= i < |nn| - 1 ensures nn[i].next == nn[i + 1] {
        if i < k {
          assert nn[i] == ns[i] && nn[i + 1] == ns[i + 1];
        } else if i > k + 1 {
          assert nn[i] == ns[i - 1] && nn[i + 1] == ns[i];
        }
      }
      forall i | 0 < i < |nn| ensures nn[i].previous == nn[i - 1] {
        if i < k + 1 {
          assert nn[i] == ns[i] && nn[i - 1] == ns[i - 1];
        } else if i > k + 2 {
          assert nn[i] == ns[i - 1] && nn[i - 1] == ns[i - 2];
        }
      }
    }

    /** Linking in a node that was not on the chain keeps the nodes distinct. */
    static lemma InsertedDistinct(ns: seq<LinkElement<E>>, nn: seq<LinkElement<E>>, holder: LinkElement<E>, k: nat)
      requires k + 1 < |ns| && nn == ns[..k + 1] + [holder] + ns[k + 1..]
      requires forall i, j :: 0 <= i < j < |ns| ==> ns[i] != ns[j]
      requires holder !in ns
      ensures forall i, j :: 0 <= i < j < |nn| ==> nn[i] != nn[j]
    {
      forall i, j | 0 <= i < j < |nn| ensures nn[i] != nn[j] {
        if i != k + 1 && j != k + 1 {
          var i' := if i <= k then i else i - 1;
          var j' := if j <= k then j else j - 1;
          assert nn[i] == ns[i'] && nn[j] == ns[j'];
        } else if i == k + 1 {
          assert nn[j] == ns[j - 1];
        } else {
          assert nn[i] == ns[i];
        }
      }
    }

    /** The node values after `e` was linked in at position `k + 1`. */
    static lemma InsertedValues(ns: seq<LinkElement<E>>, cs: seq<E>, nn: seq<LinkElement<E>>, nc: seq<E>,
                                holder: LinkElement<E>, e: E, k: nat)
      requires |ns| == |cs| + 2 && k <= |cs|
      requires nn == ns[..k + 1] + [holder] + ns[k + 1..] && nc == cs[..k] + [e] + cs[k..]
      requires forall i :: 0 <= i < |cs| ==> ns[i + 1].value == Some(cs[i])
      requires holder.value == Some(e)
      ensures forall i :: 0 <= i < |nc| ==> nn[i + 1].value == Some(nc[i])
    {
      forall i | 0 <= i < |nc| ensures nn[i + 1].value == Some(nc[i]) {
        if i < k {
          assert nn[i + 1] == ns[i + 1] && nc[i] == cs[i];
        } else if i > k {
          assert nn[i + 1] == ns[i] && nc[i] == cs[i - 1];
        }
      }
    }

    /** Cutting one node out of a chain of distinct nodes leaves them distinct. */
    static lemma RemovedDistinct(ns: seq<LinkElement<E>>, k: nat)
      requires k < |ns|
      requires forall i, j :: 0 <= i < j < |ns| ==> ns[i] != ns[j]
      ensures var nn := ns[..k] + ns[k + 1..]; forall i, j :: 0 <= i < j < |nn| ==> nn[i] != nn[j]
    {
      var nn := ns[..k] + ns[k + 1..];
      forall i, j | 0 <= i < j < |nn| ensures nn[i] != nn[j] {
        var i' := if i < k then i else i + 1;
        var j' := if j < k then j else j + 1;
        assert nn[i] == ns[i'] && nn[j] == ns[j'];
      }
    }

    /**
     * The unlinking shared by both forms of `remove`: node `elm`, at
     * position `k` of the chain, is cut out
     * (`elm.previous.next = elm.next; elm.next.previous = elm.previous`)
     * and the length drops by one.
     */
    method Unlink(elm: LinkElement<E>, ghost k: nat)
      requires Valid()
      requires 1 <= k <= |Contents| && Nodes[k] == elm
      modifies Repr
      ensures Valid() && Repr == old(Repr)
      ensures Nodes == old(Nodes[..k] + Nodes[k + 1..])
      ensures Contents == old(Contents[..k - 1] + Contents[k..])
      ensures elm.value == old(elm.value)
    {
      Expand();
      ghost var ns, cs := Nodes, Contents;
      var before := elm.previous;
      var after := elm.next;
      assert before == ns[k - 1] && after == ns[k + 1];
      before.next := after;
      after.previous := before;
      length := length - 1;
      AdoptRemoved(ns, cs, k);
    }

    /**
     * The ghost bookkeeping of `Unlink`: once the neighbours of position `k`
     * of the former chain `ns` point at each other, the chain and contents
     * drop that node and the invariant holds again.
     */
    ghost method AdoptRemoved(ns: seq<LinkElement<E>>, cs: seq<E>, k: nat)
      requires |ns| == |cs| + 2 && 1 <= k <= |cs|
      requires this in Repr
      requires forall i :: 0 <= i < |ns| ==> ns[i] in Repr
      requires ns[0] == first && ns[|ns| - 1] == last
      requires forall i, j :: 0 <= i < j < |ns| ==> ns[i] != ns[j]
      requires first.previous == null && last.next == null
      requires first.value == None && last.value == None
      requires forall i :: 0 <= i < |ns| - 1 && i != k - 1 && i != k ==> ns[i].next == ns[i + 1]
      requires forall i :: 0 < i < |ns| && i != k && i != k + 1 ==> ns[i].previous == ns[i - 1]
      requires ns[k - 1].next == ns[k + 1] && ns[k + 1].previous == ns[k - 1]
      requires forall i :: 0 <= i < |cs| ==> ns[i + 1].value == Some(cs[i])
      requires length == |cs| - 1
      modifies this
      ensures Valid() && Repr == old(Repr)
      ensures Nodes == ns[..k] + ns[k + 1..]
      ensures Contents == cs[..k - 1] + cs[k..]
    {
      var nn, nc := ns[..k] + ns[k + 1..], cs[..k - 1] + cs[k..];
      RemovedLinks(ns, nn, k);
      RemovedDistinct(ns, k);
      RemovedValues(ns, cs, nn, nc, k);
      forall i | 0 <= i < |nn| ensures nn[i] in Repr {
        assert nn[i] == ns[if i < k then i else i + 1];
      }
      assert nn[0] == ns[0] && nn[|nn| - 1] == ns[|ns| - 1];
      Nodes, Contents, Index := nn, nc, Positions(nn);
      Collapse();
    }

    /** The chain links after the node at position `k` was cut out. */
    static lemma RemovedLinks(ns: seq<LinkElement<E>>, nn: seq<LinkElement<E>>, k: nat)
      requires 1 <= k < |ns| - 1 && nn == ns[..k] + ns[k + 1..]
      requires forall i :: 0 <= i < |ns| - 1 && i != k - 1 && i != k ==> ns[i].next == ns[i + 1]
      requires forall i :: 0 < i < |ns| && i != k && i != k + 1 ==> ns[i].previous == ns[i - 1]
      requires ns[k - 1].next == ns[k + 1] && ns[k + 1].previous == ns[k - 1]
      ensures forall i :: 0 <= i < |nn| - 1 ==> nn[i].next == nn[i + 1]
      ensures forall i :: 0 < i < |nn| ==> nn[i].previous == nn[i - 1]
    {
      forall i | 0 <= i < |nn| - 1 ensures nn[i].next == nn[i + 1] {
        if i < k - 1 {
          assert nn[i] == ns[i] && nn[i + 1] == ns[i + 1];
        } else if i == k - 1 {
          assert nn[i] == ns[k - 1] && nn[i + 1] == ns[k + 1];
        } else {
          assert nn[i] == ns[i + 1] && nn[i + 1] == ns[i + 2];
        }
      }
      forall i | 0 < i < |nn| ensures nn[i].previous == nn[i - 1] {
        if i < k {
          assert nn[i] == ns[i] && nn[i - 1] == ns[i - 1];
        } else if i == k {
          assert nn[i] == ns[k + 1] && nn[i - 1] == ns[k - 1];
        } else {
          assert nn[i] == ns[i + 1] && nn[i - 1] == ns[i];
        }
      }
    }

    /** The node values after the node at position `k` was cut out. */
    static lemma RemovedValues(ns: seq<LinkElement<E>>, cs: seq<E>, nn: seq<LinkElement<E>>, nc: seq<E>, k: nat)
      requires |ns| == |cs| + 2 && 1 <= k <= |cs|
      requires nn == ns[..k] + ns[k + 1..] && nc == cs[..k - 1] + cs[k..]
      requires forall i :: 0 <= i < |cs| ==> ns[i + 1].value == Some(cs[i])
      ensures forall i :: 0 <= i < |nc| ==> nn[i + 1].value == Some(nc[i])
    {
      forall i | 0 <= i < |nc| ensures nn[i + 1].value == Some(nc[i]) {
        if i < k - 1 {
          assert nn[i + 1] == ns[i + 1] && nc[i] == cs[i];
        } else {
          assert nn[i + 1] == ns[i + 2] && nc[i] == cs[i + 1];
        }
      }
    }

    /** `iterator()`: a forward iterator whose cursor starts on the head sentinel. */
    method Iterator() returns (it: LinkedListIterator<E>)
      requires Valid()
      ensures fresh(it) && it.Valid() && it.list == this && it.pos == 0
      ensures it.startElement == first
    {
      it := new LinkedListIterator(this, first, 0);
    }

    /**
     * `descendingIterator()`: a descending iterator whose cursor starts on
     * `last.previous`, the last element (the head sentinel when empty).
     */
    method DescendingIterator() returns (it: DescendingLinkedListIterator<E>)
      requires Valid()
      ensures fresh(it) && fresh(it.base) && it.Valid() && it.base.list == this
      ensures it.base.pos == |Contents|
      ensures it.base.startElement == last.previous && it.base.currentElement == last.previous
    {
      assert Link(|Nodes| - 1);
      it := new DescendingLinkedListIterator(this, last.previous, |Contents|);
    }
  }

  /**
   * `LinkedListIterator`. The cursor `currentElement` sits on a node of the
   * list, at position `pos` of its chain (0 is the head sentinel); `next()`
   * returns the value of the node after it. The length-changing closure the
   * list hands to its iterators is modelled by updating `list.length`.
   */
  class LinkedListIterator<E(==)> {
    const list: LinkedList<E>
    var currentElement: LinkElement<E>
    var startElement: LinkElement<E>
    ghost var pos: nat

    ghost predicate Valid()
      reads this, list, list.Repr
    {
      list.Valid() && this !in list.Repr && pos < |list.Nodes| && list.Nodes[pos] == currentElement
    }

    /** The links around the cursor, as the list invariant gives them. */
    lemma Neighbours()
      requires Valid()
      ensures pos < |list.Nodes| - 1 ==> currentElement.next == list.Nodes[pos + 1]
      ensures pos == |list.Nodes| - 1 ==> currentElement.next == null
      ensures pos > 0 ==> currentElement.previous == list.Nodes[pos - 1]
      ensures pos == 0 ==> currentElement.previous == null
      ensures 1 <= pos <= |list.Contents| ==> currentElement.value == Some(list.Contents[pos - 1])
      ensures pos < |list.Contents| ==> list.Nodes[pos + 1].value == Some(list.Contents[pos])
      ensures (pos == 0 || pos == |list.Nodes| - 1) ==> currentElement.value == None
      ensures pos == |list.Contents| ==> list.Nodes[pos + 1].value == None
    {
      list.Expand();
    }

    constructor (list: LinkedList<E>, start: LinkElement<E>, ghost startPos: nat)
      requires list.Valid() && startPos < |list.Nodes| && list.Nodes[startPos] == start
      ensures Valid() && this.list == list && pos == startPos
      ensures currentElement == start && startElement == start
    {
      this.list := list;
      currentElement := start;
      startElement := start;
      pos := startPos;
    }

    /** `hasNext()`: the node after the cursor exists and is not the tail sentinel. */
    method HasNext() returns (b: bool)
      requires Valid()
      ensures b <==> pos < |list.Contents|
    {
      Neighbours();
      b := currentElement.next != null && currentElement.next.value != None;
    }

    /**
     * `next()`: steps onto the following element and returns it, or returns
     * `null` without moving when that node is the tail sentinel. On the tail
     * sentinel itself the source dereferences `null`.
     */
    method Next() returns (r: Option<E>)
      requires Valid() && pos <= |list.Contents|
      modifies this
      ensures Valid() && startElement == old(startElement)
      ensures old(pos) < |list.Contents| ==> pos == old(pos) + 1 && r == Some(list.Contents[old(pos)])
      ensures old(pos) == |list.Contents| ==> pos == old(pos) && r == None
    {
      Neighbours();
      if currentElement.next.value == None {
        return None;
      }
      currentElement := currentElement.next;
      pos := pos + 1;
      r := currentElement.value;
    }

    /** `hasPrevious()`: the cursor is on an element (not on a sentinel). */
    method HasPrevious() returns (b: bool)
      requires Valid()
      ensures b <==> 1 <= pos <= |list.Contents|
    {
      Neighbours();
      b := currentElement.previous != null && currentElement.value != None;
    }

    /**
     * `previous()`: returns the element under the cursor and steps back one
     * node, or returns `null` without moving when the cursor is on a sentinel.
     */
    method Previous() returns (r: Option<E>)
      requires Valid()
      modifies this
      ensures Valid() && startElement == old(startElement)
      ensures 1 <= old(pos) <= |list.Contents| ==> pos == old(pos) - 1 && r == Some(list.Contents[old(pos) - 1])
      ensures !(1 <= old(pos) <= |list.Contents|) ==> pos == old(pos) && r == None
    {
      Neighbours();
      if currentElement.value == None {
        return None;
      }
      currentElement := currentElement.previous;
      pos := pos - 1;
      Neighbours();
      r := currentElement.next.value;
    }

    /**
     * `remove()`: unlinks the element after the cursor and returns it, or
     * returns `null` when the node after the cursor is the tail sentinel.
     */
    method Remove() returns (r: Option<E>)
      requires Valid() && pos <= |list.Contents|
      modifies this, list.Repr
      ensures Valid() && fresh(list.Repr - old(list.Repr))
      ensures pos == old(pos) && startElement == old(startElement)
      ensures old(pos) < |old(list.Contents)| ==>
        && r == Some(old(list.Contents)[pos])
        && list.Contents == old(list.Contents)[..pos] + old(list.Contents)[pos + 1..]
      ensures old(pos) == |old(list.Contents)| ==> r == None && list.Contents == old(list.Contents)
    {
      Neighbours();
      if currentElement.next.value == None {
        return None;
      }
      var ret := currentElement.next.value;
      list.Unlink(currentElement.next, pos + 1);
      r := ret;
    }

    /** `insert(e)`: links a new node holding `e` right after the cursor. */
    method Insert(e: E)
      requires Valid() && pos <= |list.Contents|
      modifies this, list.Repr
      ensures Valid() && fresh(list.Repr - old(list.Repr))
      ensures pos == old(pos) && startElement == old(startElement)
      ensures list.Contents == old(list.Contents)[..pos] + [e] + old(list.Contents)[pos..]
    {
      list.LinkAfter(currentElement, pos, e);
      assert list.Nodes[pos] == old(list.Nodes[pos]);
    }

    /**
     * `swap(e)`: replaces the value of the node after the cursor and returns
     * the old value. With the cursor on the last element that node is the
     * tail sentinel: the source returns `null` and stores `e` in the
     * sentinel, after which the list no longer ends where `Valid()` says.
     */
    method Swap(e: E) returns (r: Option<E>)
      requires Valid() && pos <= |list.Contents|
      modifies list, currentElement.next
      ensures list.Repr == old(list.Repr) && list.Nodes == old(list.Nodes)
      ensures old(pos) < |old(list.Contents)| ==>
        && Valid()
        && r == Some(old(list.Contents)[pos])
        && list.Contents == old(list.Contents)[pos := e]
      ensures old(pos) == |old(list.Contents)| ==>
        && r == None && unchanged(list)
        && currentElement.next == list.last && list.last.value == Some(e)
    {
      list.Expand();
      assert currentElement.next == list.Nodes[pos + 1];
      var node := currentElement.next;
      r := node.value;
      node.value := Some(e);
      if pos < |list.Contents| {
        list.Contents := list.Contents[pos := e];
        list.Collapse();
      }
    }

    /** `reset()`: puts the cursor back on the node the iterator started from. */
    method Reset()
      requires Valid() && startElement in list.Nodes
      modifies this
      ensures Valid() && currentElement == startElement && startElement == old(startElement)
      ensures list.Nodes[pos] == startElement
      ensures startElement == list.first ==> pos == 0
    {
      currentElement := startElement;
      ghost var p: nat :| p < |list.Nodes| && list.Nodes[p] == startElement;
      assert list.Link(p) && list.Link(0);
      pos := p;
    }

    /** `clone()`: a new iterator over the same list starting from this cursor. */
    method Clone() returns (c: LinkedListIterator<E>)
      requires Valid()
      ensures fresh(c) && c.Valid() && c.list == list && c.pos == pos
      ensures c.startElement == currentElement && c.currentElement == currentElement
    {
      c := new LinkedListIterator(list, currentElement, pos);
    }
  }

  /**
   * `DescendingLinkedListIterator`, which extends the forward iterator and
   * swaps the roles of its methods. The inherited state and methods are those
   * of `base`; a call on `super` is a call on `base`.
   */
  class DescendingLinkedListIterator<E(==)> {
    const base: LinkedListIterator<E>

    ghost predicate Valid()
      reads this, base, base.list, base.list.Repr
    {
      base.Valid()
    }

    constructor (list: LinkedList<E>, start: LinkElement<E>, ghost startPos: nat)
      requires list.Valid() && startPos < |list.Nodes| && list.Nodes[startPos] == start
      ensures Valid() && fresh(base) && base.list == list && base.pos == startPos
      ensures base.currentElement == start && base.startElement == start
    {
      base := new LinkedListIterator(list, start, startPos);
    }

    /** `hasNext()` is the base `hasPrevious()`. */
    method HasNext() returns (b: bool)
      requires Valid()
      ensures b <==> 1 <= base.pos <= |base.list.Contents|
    {
      b := base.HasPrevious();
    }

    /** `next()` is the base `previous()`: it returns elements from the back. */
    method Next() returns (r: Option<E>)
      requires Valid()
      modifies base
      ensures Valid() && base.startElement == old(base.startElement)
      ensures 1 <= old(base.pos) <= |base.list.Contents| ==>
        base.pos == old(base.pos) - 1 && r == Some(base.list.Contents[old(base.pos) - 1])
      ensures !(1 <= old(base.pos) <= |base.list.Contents|) ==> base.pos == old(base.pos) && r == None
    {
      r := base.Previous();
    }

    /** `hasPrevious()` is the base `hasNext()`. */
    method HasPrevious() returns (b: bool)
      requires Valid()
      ensures b <==> base.pos < |base.list.Contents|
    {
      b := base.HasNext();
    }

    /** `previous()` is the base `next()`. */
    method Previous() returns (r: Option<E>)
      requires Valid() && base.pos <= |base.list.Contents|
      modifies base
      ensures Valid() && base.startElement == old(base.startElement)
      ensures old(base.pos) < |base.list.Contents| ==>
        base.pos == old(base.pos) + 1 && r == Some(base.list.Contents[old(base.pos)])
      ensures old(base.pos) == |base.list.Contents| ==> base.pos == old(base.pos) && r == None
    {
      r := base.Next();
    }

    /**
     * `remove()`: a base `previous()` and then a base `remove()`, so it
     * unlinks the element the next descending `next()` would have returned
     * (the first element when the cursor is on the head sentinel).
     */
    method Remove() returns (r: Option<E>)
      requires Valid() && base.pos <= |base.list.Contents|
      modifies base, base.list.Repr
      ensures Valid() && fresh(base.list.Repr - old(base.list.Repr))
      ensures var p := if old(base.pos) >= 1 then old(base.pos) - 1 else 0;
        && base.pos == p
        && (p < |old(base.list.Contents)| ==>
             r == Some(old(base.list.Contents)[p])
             && base.list.Contents == old(base.list.Contents)[..p] + old(base.list.Contents)[p + 1..])
        && (p == |old(base.list.Contents)| ==> r == None && base.list.Contents == old(base.list.Contents))
    {
      var _ := base.Previous();
      r := base.Remove();
    }

    /** `insert(e)`: a base `previous()` and then a base `insert(e)`. */
    method Insert(e: E)
      requires Valid() && base.pos <= |base.list.Contents|
      modifies base, base.list.Repr
      ensures Valid() && fresh(base.list.Repr - old(base.list.Repr))
      ensures var p := if old(base.pos) >= 1 then old(base.pos) - 1 else 0;
        && base.pos == p
        && base.list.Contents == old(base.list.Contents)[..p] + [e] + old(base.list.Contents)[p..]
    {
      var _ := base.Previous();
      base.Insert(e);
    }

    /**
     * `swap(e)`: a base `previous()` and then a base `swap(e)`. On an empty
     * list the base cursor stays on the head sentinel, so `e` is stored in
     * the tail sentinel and `null` is returned.
     */
    method Swap(e: E) returns (r: Option<E>)
      requires Valid() && base.pos <= |base.list.Contents|
      modifies base, base.list.Repr
      ensures base.list.Repr == old(base.list.Repr) && base.list.Nodes == old(base.list.Nodes)
      ensures base.pos == if old(base.pos) >= 1 then old(base.pos) - 1 else 0
      ensures old(base.list.Contents) != [] ==>
        && Valid()
        && r == Some(old(base.list.Contents)[base.pos])
        && base.list.Contents == old(base.list.Contents)[base.pos := e]
      ensures old(base.list.Contents) == [] ==>
        && r == None && base.list.Contents == []
        && base.list.last.value == Some(e)
    {
      var _ := base.Previous();
      base.Neighbours();
      base.list.Expand();
      r := base.Swap(e);
    }

    /** `reset()` is inherited. */
    method Reset()
      requires Valid() && base.startElement in base.list.Nodes
      modifies base
      ensures Valid() && base.currentElement == base.startElement
      ensures base.list.Nodes[base.pos] == base.startElement
    {
      base.Reset();
    }

    /** `clone()`: a new descending iterator starting from this cursor. */
    method Clone() returns (c: DescendingLinkedListIterator<E>)
      requires Valid()
      ensures fresh(c) && fresh(c.base) && c.Valid() && c.base.list == base.list && c.base.pos == base.pos
      ensures c.base.startElement == base.currentElement && c.base.currentElement == base.currentElement
    {
      c := new DescendingLinkedListIterator(base.list, base.currentElement, base.pos);
    }
  }

  /**
   * `FilterIterator` over a forward iterator: `next()` and `previous()` skip
   * the elements the filter rejects.
   */
  class FilterIterator<E(==)> {
    const iter: LinkedListIterator<E>
    const filter: E -> bool

    ghost predicate Valid()
      reads this, iter, iter.list, iter.list.Repr
    {
      iter.Valid() && iter.pos <= |iter.list.Contents|
    }

    constructor (iter: LinkedListIterator<E>, filter: E -> bool)
      requires iter.Valid() && iter.pos <= |iter.list.Contents|
      ensures Valid() && this.iter == iter && this.filter == filter
    {
      this.iter := iter;
      this.filter := filter;
    }

    /** `hasNext()` is a stub that always answers `true`. */
    method HasNext() returns (b: bool)
      ensures b
    {
      b := true;
    }

    /** `hasPrevious()` is the same stub. */
    method HasPrevious() returns (b: bool)
      ensures b
    {
      b := true;
    }

    /**
     * `next()`: steps the inner iterator forward until it returns an element
     * the filter accepts and returns that element; `null` once the inner
     * iterator runs out.
     */
    method Next() returns (r: Option<E>)
      requires Valid()
      modifies iter
      ensures Valid() && iter.startElement == old(iter.startElement)
      ensures var k := NextMatch(iter.list.Contents, old(iter.pos), filter);
        && (k < |iter.list.Contents| ==> r == Some(iter.list.Contents[k]) && iter.pos == k + 1)
        && (k == |iter.list.Contents| ==> r == None && iter.pos == k)
    {
      ghost var s := iter.list.Contents;
      ghost var k := NextMatch(s, iter.pos, filter);
      var more := iter.HasNext();
      while more
        invariant iter.Valid() && iter.startElement == old(iter.startElement)
        invariant old(iter.pos) <= iter.pos <= k
        invariant more <==> iter.pos < |s|
        invariant NextMatch(s, iter.pos, filter) == k
        decreases |s| - iter.pos
      {
        var elm := iter.Next();
        if filter(elm.value) {
          return elm;
        }
        more := iter.HasNext();
      }
      r := None;
    }

    /**
     * `previous()`: steps the inner iterator back until it returns an element
     * the filter accepts and returns that element; `null` once the cursor is
     * back on the head sentinel.
     */
    method Previous() returns (r: Option<E>)
      requires Valid()
      modifies iter
      ensures Valid() && iter.startElement == old(iter.startElement)
      ensures var k := PreviousMatch(iter.list.Contents, old(iter.pos), filter);
        && (k > 0 ==> r == Some(iter.list.Contents[k - 1]) && iter.pos == k - 1)
        && (k == 0 ==> r == None && iter.pos == 0)
    {
      ghost var s := iter.list.Contents;
      ghost var k := PreviousMatch(s, iter.pos, filter);
      var more := iter.HasPrevious();
      while more
        invariant iter.Valid() && iter.startElement == old(iter.startElement)
        invariant k <= iter.pos <= old(iter.pos)
        invariant more <==> 1 <= iter.pos
        invariant PreviousMatch(s, iter.pos, filter) == k
        decreases iter.pos
      {
        var elm := iter.Previous();
        if filter(elm.value) {
          return elm;
        }
        more := iter.HasPrevious();
      }
      r := None;
    }

    /**
     * `remove()`: steps forward to the next element the filter accepts,
     * steps back over it and unlinks it; nothing is unlinked when no
     * accepted element is left.
     */
    method Remove()
      requires Valid()
      modifies iter, iter.list.Repr
      ensures Valid() && fresh(iter.list.Repr - old(iter.list.Repr))
      ensures var s, k := old(iter.list.Contents), NextMatch(old(iter.list.Contents), old(iter.pos), filter);
        && (k < |s| ==> iter.list.Contents == s[..k] + s[k + 1..] && iter.pos == k)
        && (k == |s| ==> iter.list.Contents == s && iter.pos == k)
    {
      ghost var s := iter.list.Contents;
      ghost var k := NextMatch(s, iter.pos, filter);
      var more := iter.HasNext();
      while more
        invariant iter.Valid() && iter.list.Contents == s && iter.list.Repr == old(iter.list.Repr)
        invariant old(iter.pos) <= iter.pos <= k
        invariant more <==> iter.pos < |s|
        invariant NextMatch(s, iter.pos, filter) == k
        decreases |s| - iter.pos
      {
        var elm := iter.Next();
        if filter(elm.value) {
          var _ := iter.Previous();
          var _ := iter.Remove();
          return;
        }
        more := iter.HasNext();
      }
    }

    /** `insert(e)` is the inner iterator's `insert(e)`. */
    method Insert(e: E)
      requires Valid()
      modifies iter, iter.list.Repr
      ensures Valid() && fresh(iter.list.Repr - old(iter.list.Repr))
      ensures iter.pos == old(iter.pos)
      ensures iter.list.Contents == old(iter.list.Contents)[..iter.pos] + [e] + old(iter.list.Contents)[iter.pos..]
    {
      iter.Insert(e);
    }

    /**
     * `swap(e)` is the inner iterator's `swap(e)`, including its write into
     * the tail sentinel when the inner cursor is on the last element.
     */
    method Swap(e: E) returns (r: Option<E>)
      requires Valid()
      modifies iter.list.Repr
      ensures iter.list.Repr == old(iter.list.Repr) && iter.list.Nodes == old(iter.list.Nodes)
      ensures old(iter.pos) < |old(iter.list.Contents)| ==>
        && Valid()
        && r == Some(old(iter.list.Contents)[iter.pos])
        && iter.list.Contents == old(iter.list.Contents)[iter.pos := e]
      ensures old(iter.pos) == |old(iter.list.Contents)| ==>
        && r == None && iter.list.Contents == old(iter.list.Contents)
        && iter.list.last.value == Some(e)
    {
      iter.Neighbours();
      iter.list.Expand();
      r := iter.Swap(e);
    }

    /** `reset()` is the inner iterator's `reset()`. */
    method Reset()
      requires Valid() && iter.startElement in iter.list.Nodes
      requires forall p :: 0 <= p < |iter.list.Nodes| && iter.list.Nodes[p] == iter.startElement ==> p <= |iter.list.Contents|
      modifies iter
      ensures Valid() && iter.currentElement == iter.startElement
    {
      iter.Reset();
    }

    /** `clone()`: a filter iterator over a clone of the inner iterator. */
    method Clone() returns (c: FilterIterator<E>)
      requires Valid()
      ensures fresh(c) && fresh(c.iter) && c.Valid() && c.filter == filter
      ensures c.iter.list == iter.list && c.iter.pos == iter.pos
      ensures c.iter.startElement == iter.currentElement && c.iter.currentElement == iter.currentElement
    {
      var it := iter.Clone();
      c := new FilterIterator(it, filter);
    }
  }

  /**
   * The index of the first element at or after `p` that `filter` accepts,
   * or `|s|` when there is none.
   */
  function NextMatch<E>(s: seq<E>, p: nat, filter: E -> bool): (k: nat)
    requires p <= |s|
    ensures p <= k <= |s|
    ensures forall i :: p <= i < k ==> !filter(s[i])
    ensures k < |s| ==> filter(s[k])
    decreases |s| - p
  {
    if p == |s| || filter(s[p]) then p else NextMatch(s, p + 1, filter)
  }

  /**
   * One more than the index of the last element before `p` that `filter`
   * accepts, or 0 when there is none.
   */
  function PreviousMatch<E>(s: seq<E>, p: nat, filter: E -> bool): (k: nat)
    requires p <= |s|
    ensures k <= p
    ensures forall i :: k <= i < p ==> !filter(s[i])
    ensures k > 0 ==> filter(s[k - 1])
  {
    if p == 0 || filter(s[p - 1]) then p else PreviousMatch(s, p - 1, filter)
  }

  /**
   * The arguments a traversal passes to its callback when it stops right
   * after the first call whose result is falsy: all of `args` when every
   * call returns true.
   */
  function CallsUntilFalse<A>(args: seq<A>, f: A -> bool): seq<A>
  {
    if args == [] then []
    else if f(args[0]) then [args[0]] + CallsUntilFalse(args[1..], f)
    else [args[0]]
  }

  /**
   * The calls made are a prefix of the arguments; every call but the last
   * returned true, and when the traversal stopped early the last returned
   * false.
   */
  lemma {:induction false} CallsUntilFalseMeaning<A>(args: seq<A>, f: A -> bool)
    ensures var calls := CallsUntilFalse(args, f);
      && calls <= args
      && (forall i :: 0 <= i < |calls| - 1 ==> f(calls[i]))
      && (|calls| < |args| ==> |calls| > 0 && !f(calls[|calls| - 1]))
  {
    if args != [] && f(args[0]) {
      CallsUntilFalseMeaning(args[1..], f);
      var rest := CallsUntilFalse(args[1..], f);
      assert CallsUntilFalse(args, f) == [args[0]] + rest;
      forall i | 0 <= i < |rest| ensures ([args[0]] + rest)[i + 1] == rest[i] { }
    }
  }

  /**
   * Conversely, a prefix of the arguments whose calls all returned true but
   * for the last, and which ends either with a false result or with the
   * arguments, is exactly the calls made.
   */
  lemma {:induction false} CallsUntilFalsePrefix<A>(args: seq<A>, k: nat, f: A -> bool)
    requires k <= |args|
    requires forall i :: 0 <= i < k - 1 ==> f(args[i])
    requires k < |args| ==> k > 0 && !f(args[k - 1])
    ensures CallsUntilFalse(args, f) == args[..k]
  {
    if k > 0 && f(args[0]) {
      CallsUntilFalsePrefix(args[1..], k - 1, f);
      assert args[..k] == [args[0]] + args[1..][..k - 1];
    } else if k == 0 {
      assert args == [];
    }
  }

  /**
   * How a traversal that stops after the first falsy result runs over two
   * argument lists one after the other: it goes on into `b` only when the
   * last call on `a` (if any) returned true.
   */
  lemma {:induction false} CallsUntilFalseAppend<A>(a: seq<A>, b: seq<A>, f: A -> bool)
    ensures var c := CallsUntilFalse(a, f);
      CallsUntilFalse(a + b, f) == if c == [] || f(c[|c| - 1]) then c + CallsUntilFalse(b, f) else c
  {
    if a == [] {
      assert a + b == b;
    } else {
      assert (a + b)[0] == a[0] && (a + b)[1..] == a[1..] + b;
      if f(a[0]) {
        CallsUntilFalseAppend(a[1..], b, f);
      }
    }
  }

  /** A two-argument callback seen as a predicate on argument pairs. */
  function Paired<A, B>(f: (A, B) -> bool): ((A, B)) -> bool
  {
    (p: (A, B)) => f(p.0, p.1)
  }

  /** The argument pairs `(a, t[j])` for every `j`, in order. */
  function RowWith<E, T>(a: E, t: seq<T>): (r: seq<(E, T)>)
    ensures |r| == |t|
  {
    seq(|t|, j requires 0 <= j < |t| => (a, t[j]))
  }

  /** All pairs `(s[i], s[j])` with `from <= i < j`, in lexicographic order of `(i, j)`. */
  function PairsFrom<E>(s: seq<E>, from: nat): seq<(E, E)>
    decreases |s| - from
  {
    if from >= |s| then [] else RowWith(s[from], s[from + 1..]) + PairsFrom(s, from + 1)
  }

  /** All pairs `(s[i], s[j])` with `i < j`, in lexicographic order. */
  function Pairs<E>(s: seq<E>): seq<(E, E)>
  {
    PairsFrom(s, 0)
  }

  /** Every pair of positions `i < j` at or after `from` has its pair of elements listed. */
  lemma {:induction false} PairsFromComplete<E>(s: seq<E>, from: nat, i: nat, j: nat)
    requires from <= i < j < |s|
    ensures (s[i], s[j]) in PairsFrom(s, from)
    decreases i - from
  {
    var row, rest := RowWith(s[from], s[from + 1..]), PairsFrom(s, from + 1);
    assert PairsFrom(s, from) == row + rest;
    if i == from {
      assert row[j - i - 1] == (s[i], s[j]);
      assert (row + rest)[j - i - 1] == (s[i], s[j]);
    } else {
      PairsFromComplete(s, from + 1, i, j);
      assert forall q :: q in rest ==> q in row + rest;
    }
  }

  /** Only pairs of positions `i < j` are listed: no element is paired with itself or an earlier one. */
  lemma {:induction false} PairsFromOrdered<E>(s: seq<E>, from: nat, q: (E, E))
    requires q in PairsFrom(s, from)
    ensures exists i, j :: from <= i < j < |s| && q == (s[i], s[j])
    decreases |s| - from
  {
    var row := RowWith(s[from], s[from + 1..]);
    if q in row {
      var j :| 0 <= j < |row| && row[j] == q;
      assert q == (s[from], s[from + 1 + j]);
    } else {
      PairsFromOrdered(s, from + 1, q);
    }
  }

  /** `forCombinations` pairs n elements in n(n-1)/2 calls when no call returns false. */
  lemma {:induction false} PairsFromCount<E>(s: seq<E>, from: nat)
    requires from <= |s|
    ensures 2 * |PairsFrom(s, from)| == (|s| - from) * (|s| - from - 1)
    decreases |s| - from
  {
    if from < |s| {
      PairsFromCount(s, from + 1);
    }
  }

  /**
   * The inner loop of `forCombinations`: `iter2`, a clone of `iter1`, yields
   * the elements after `a`, and `func(a, b)` is called on each until a call
   * returns false. `go` is the result of the last call (true when none was
   * made).
   */
  method CallWithLater<E(==)>(a: E, iter1: LinkedListIterator<E>, f: (E, E) -> bool) returns (go: bool, calls: seq<(E, E)>)
    requires iter1.Valid() && iter1.pos <= |iter1.list.Contents|
    ensures calls == CallsUntilFalse(RowWith(a, iter1.list.Contents[iter1.pos..]), Paired(f))
    ensures go <==> calls == [] || Paired(f)(calls[|calls| - 1])
  {
    var iter2 := iter1.Clone();
    go, calls := CallUntilFalse(a, iter2, f);
  }

  /** The loop of `CallWithLater`, over the clone `iter2`. */
  method CallUntilFalse<E(==)>(a: E, iter2: LinkedListIterator<E>, f: (E, E) -> bool) returns (go: bool, calls: seq<(E, E)>)
    requires iter2.Valid() && iter2.pos <= |iter2.list.Contents|
    modifies iter2
    ensures calls == CallsUntilFalse(RowWith(a, iter2.list.Contents[old(iter2.pos)..]), Paired(f))
    ensures go <==> calls == [] || Paired(f)(calls[|calls| - 1])
  {
    ghost var s := iter2.list.Contents;
    ghost var p0 := iter2.pos;
    go := true;
    calls := [];
    ghost var p := p0;
    var more := iter2.HasNext();
    while more && go
      invariant iter2.Valid() && iter2.list.Contents == s && iter2.pos == p
      invariant p0 <= p <= |s|
      invariant more <==> p < |s|
      invariant |calls| == p - p0 && forall i :: 0 <= i < |calls| ==> calls[i] == (a, s[p0 + i])
      invariant forall i :: 0 <= i < |calls| - 1 ==> f(calls[i].0, calls[i].1)
      invariant go <==> p == p0 || f(a, s[p - 1])
      decreases |s| - p
    {
      var e := iter2.Next();
      go := f(a, e.value);
      calls := calls + [(a, e.value)];
      p := p + 1;
      more := iter2.HasNext();
    }
    ghost var row := RowWith(a, s[p0..]);
    assert calls == row[..p - p0];
    forall i | 0 <= i < |calls| - 1 ensures Paired(f)(row[i]) {
      assert row[i] == calls[i];
    }
    CallsUntilFalsePrefix(row, p - p0, Paired(f));
  }

  /** One row of `forCombinations`: the calls pairing `s0[i]` with the later elements. */
  lemma CombinationsRowStep<E>(whole: seq<(E, E)>, s0: seq<E>, i: nat, calls: seq<(E, E)>, rowCalls: seq<(E, E)>,
                               f: (E, E) -> bool)
    requires i < |s0|
    requires whole == calls + CallsUntilFalse(PairsFrom(s0, i), Paired(f))
    requires rowCalls == CallsUntilFalse(RowWith(s0[i], s0[i + 1..]), Paired(f))
    ensures var go := rowCalls == [] || Paired(f)(rowCalls[|rowCalls| - 1]);
      && (go ==> whole == (calls + rowCalls) + CallsUntilFalse(PairsFrom(s0, i + 1), Paired(f)))
      && (!go ==> whole == calls + rowCalls)
  {
    CallsUntilFalseAppend(RowWith(s0[i], s0[i + 1..]), PairsFrom(s0, i + 1), Paired(f));
  }

  /**
   * One pass of the outer loop of `forCombinations`: `iter1` yields the
   * next element, which is paired with the elements after it; `more` is the
   * next `iter1.hasNext()`.
   */
  method CombinationRow<E(==)>(iter1: LinkedListIterator<E>, f: (E, E) -> bool)
    returns (go: bool, calls: seq<(E, E)>, more: bool)
    requires iter1.Valid() && iter1.pos < |iter1.list.Contents|
    modifies iter1
    ensures iter1.Valid() && iter1.pos == old(iter1.pos) + 1
    ensures more <==> iter1.pos < |iter1.list.Contents|
    ensures var s := iter1.list.Contents;
      && calls == CallsUntilFalse(RowWith(s[old(iter1.pos)], s[old(iter1.pos) + 1..]), Paired(f))
      && (go <==> calls == [] || Paired(f)(calls[|calls| - 1]))
  {
    var elm := iter1.Next();
    go, calls := CallWithLater(elm.value, iter1, f);
    more := iter1.HasNext();
  }

  /**
   * `forCombinations(iter, func)` with an iterator argument: for each
   * element `a` the iterator yields, a clone of the iterator pairs `a` with
   * every later element; the traversal stops right after the first falsy
   * result. Returns the arguments of the calls made, in order.
   */
  method ForCombinations<E(==)>(iter1: LinkedListIterator<E>, f: (E, E) -> bool) returns (calls: seq<(E, E)>)
    requires iter1.Valid() && iter1.pos <= |iter1.list.Contents|
    modifies iter1
    ensures iter1.Valid() && old(iter1.pos) <= iter1.pos <= |iter1.list.Contents|
    ensures calls == CallsUntilFalse(Pairs(iter1.list.Contents[old(iter1.pos)..]), Paired(f))
  {
    ghost var s := iter1.list.Contents;
    ghost var p0 := iter1.pos;
    ghost var s0 := s[p0..];
    ghost var whole := CallsUntilFalse(Pairs(s0), Paired(f));
    var go := true;
    calls := [];
    ghost var i := 0;
    var more := iter1.HasNext();
    while more && go
      invariant iter1.Valid() && iter1.list.Contents == s && iter1.pos == p0 + i
      invariant i <= |s0|
      invariant more <==> i < |s0|
      invariant go ==> whole == calls + CallsUntilFalse(PairsFrom(s0, i), Paired(f))
      invariant !go ==> whole == calls
      decreases |s0| - i
    {
      assert s[p0 + i] == s0[i] && s[p0 + i + 1..] == s0[i + 1..];
      var rowCalls;
      go, rowCalls, more := CombinationRow(iter1, f);
      CombinationsRowStep(whole, s0, i, calls, rowCalls, f);
      calls := calls + rowCalls;
      i := i + 1;
    }
    assert go ==> PairsFrom(s0, i) == [];
  }

  /**
   * The argument list of one call per element: `forEach` passes each element
   * together with `index`, which it never increments from 0.
   */
  function WithIndexZero<E>(s: seq<E>): (args: seq<(E, int)>)
    ensures |args| == |s|
    ensures forall i :: 0 <= i < |s| ==> args[i] == (s[i], 0)
  {
    seq(|s|, i requires 0 <= i < |s| => (s[i], 0))
  }

  /**
   * `forEach(list, func)`: calls `func` on the elements in order and stops
   * right after the first falsy result. Returns the arguments of the calls
   * made; every index passed is 0.
   */
  method ForEach<E(==)>(list: LinkedList<E>, f: (E, int) -> bool) returns (calls: seq<(E, int)>)
    requires list.Valid()
    ensures calls == CallsUntilFalse(WithIndexZero(list.Contents), Paired(f))
  {
    ghost var s := list.Contents;
    var iter := list.Iterator();
    var go := true;
    var index := 0;
    calls := [];
    var more := iter.HasNext();
    ghost var p := 0;
    while more && go
      invariant iter.Valid() && iter.list == list && iter.pos == p <= |s|
      invariant more <==> p < |s|
      invariant index == 0
      invariant |calls| == p && forall i :: 0 <= i < p ==> calls[i] == (s[i], 0)
      invariant forall i :: 0 <= i < p - 1 ==> f(s[i], 0)
      invariant go <==> p == 0 || f(s[p - 1], 0)
      modifies iter
      decreases |s| - p
    {
      var e := iter.Next();
      go := f(e.value, index);
      calls := calls + [(e.value, index)];
      p := p + 1;
      more := iter.HasNext();
    }
    assert calls == WithIndexZero(s)[..p];
    CallsUntilFalsePrefix(WithIndexZero(s), p, Paired(f));
  }

  /**
   * The calls `forPermutations(l1, l2, func)` makes: each element of `s` is
   * paired with every element of `t`; the stop flag is only the result of
   * the last call of a row, and is only looked at between rows.
   */
  function PermutationCalls<E, T>(s: seq<E>, t: seq<T>, f: (E, T) -> bool): seq<(E, T)>
  {
    if s == [] then []
    else RowWith(s[0], t) + (if t == [] || f(s[0], t[|t| - 1]) then PermutationCalls(s[1..], t, f) else [])
  }

  /** All pairs of an element of `s` with an element of `t`, row by row. */
  function AllPairs<E, T>(s: seq<E>, t: seq<T>): seq<(E, T)>
  {
    if s == [] then [] else RowWith(s[0], t) + AllPairs(s[1..], t)
  }

  /** The calls made are whole rows of all the pairings, taken from the front. */
  lemma {:induction false} PermutationCallsWholeRows<E, T>(s: seq<E>, t: seq<T>, f: (E, T) -> bool)
    ensures exists k :: 0 <= k <= |s| && PermutationCalls(s, t, f) == AllPairs(s[..k], t)
  {
    if s == [] {
      assert PermutationCalls(s, t, f) == AllPairs(s[..0], t);
    } else if t == [] || f(s[0], t[|t| - 1]) {
      PermutationCallsWholeRows(s[1..], t, f);
      var k :| 0 <= k <= |s| - 1 && PermutationCalls(s[1..], t, f) == AllPairs(s[1..][..k], t);
      assert s[..k + 1][1..] == s[1..][..k];
      assert PermutationCalls(s, t, f) == AllPairs(s[..k + 1], t);
    } else {
      assert s[..1][1..] == [];
      assert PermutationCalls(s, t, f) == AllPairs(s[..1], t);
    }
  }

  /** When every call returns true, every element of `s` is paired with every element of `t`. */
  lemma {:induction false} PermutationCallsAllTrue<E, T>(s: seq<E>, t: seq<T>, f: (E, T) -> bool)
    requires forall a, b :: a in s && b in t ==> f(a, b)
    ensures PermutationCalls(s, t, f) == AllPairs(s, t)
  {
    if s != [] {
      assert forall a :: a in s[1..] ==> a in s;
      PermutationCallsAllTrue(s[1..], t, f);
    }
  }

  /**
   * A falsy result on a row's last call ends the traversal after that row:
   * when `s[i]` is the first element whose last call is falsy, exactly the
   * rows `0..i` are made.
   */
  lemma {:induction false} PermutationCallsStopAfterRow<E, T>(s: seq<E>, t: seq<T>, f: (E, T) -> bool, i: nat)
    requires i < |s| && |t| > 0 && !f(s[i], t[|t| - 1])
    requires forall k :: 0 <= k < i ==> f(s[k], t[|t| - 1])
    ensures PermutationCalls(s, t, f) == AllPairs(s[..i + 1], t)
  {
    if i == 0 {
      assert s[..1][1..] == [];
    } else {
      PermutationCallsStopAfterRow(s[1..], t, f, i - 1);
      assert s[..i + 1][1..] == s[1..][..i];
    }
  }

  /**
   * A falsy result before the end of a row does not stop the row: with
   * `s = [1, 2]`, `t = [1, 2]` and a callback that is falsy only for
   * `(1, 1)`, all four pairings are made, where stopping after the first
   * falsy result would make one.
   */
  lemma PermutationsIgnoreEarlyFalse()
    ensures var f := (a: int, b: int) => !(a == 1 && b == 1);
      && |PermutationCalls([1, 2], [1, 2], f)| == 4
      && |CallsUntilFalse(AllPairs([1, 2], [1, 2]), Paired(f))| == 1
  {
    var f := (a: int, b: int) => !(a == 1 && b == 1);
    var s: seq<int> := [1, 2];
    var t: seq<int> := [1, 2];
    assert s[1..] == [2] && s[1..][1..] == [];
    assert RowWith(1, t) == [(1, 1), (1, 2)];
    assert RowWith(2, t) == [(2, 1), (2, 2)];
    assert AllPairs(s, t)[0] == (1, 1);
  }

  /**
   * The inner loop of `forPermutations` and the reset after it: `func(a, b)`
   * is called for every element `b` of the list of `iter2`, whatever the
   * results, and `iter2` goes back to the head sentinel; `go` is the result
   * of the last call (true when none was made).
   */
  method CallWithAll<E(==), T(==)>(a: E, iter2: LinkedListIterator<T>, f: (E, T) -> bool) returns (go: bool, calls: seq<(E, T)>)
    requires iter2.Valid() && iter2.pos == 0 && iter2.startElement == iter2.list.first
    modifies iter2
    ensures iter2.Valid() && iter2.pos == 0 && iter2.startElement == iter2.list.first
    ensures calls == RowWith(a, iter2.list.Contents)
    ensures go <==> iter2.list.Contents == [] || f(a, iter2.list.Contents[|iter2.list.Contents| - 1])
  {
    go, calls := CallWithRest(a, iter2, f);
    iter2.Reset();
  }

  /**
   * The loop of `CallWithAll`: `func(a, b)` is called for every element `b`
   * that `iter2` still yields, whatever the results.
   */
  method CallWithRest<E(==), T(==)>(a: E, iter2: LinkedListIterator<T>, f: (E, T) -> bool) returns (go: bool, calls: seq<(E, T)>)
    requires iter2.Valid() && iter2.pos <= |iter2.list.Contents|
    modifies iter2
    ensures iter2.Valid() && iter2.pos == |iter2.list.Contents| && iter2.startElement == old(iter2.startElement)
    ensures calls == RowWith(a, iter2.list.Contents[old(iter2.pos)..])
    ensures go <==> old(iter2.pos) == |iter2.list.Contents| || f(a, iter2.list.Contents[|iter2.list.Contents| - 1])
  {
    ghost var t := iter2.list.Contents;
    ghost var q0 := iter2.pos;
    go := true;
    calls := [];
    ghost var q := q0;
    var more := iter2.HasNext();
    while more
      invariant iter2.Valid() && iter2.list.Contents == t && iter2.pos == q
      invariant iter2.startElement == old(iter2.startElement)
      invariant q0 <= q <= |t|
      invariant more <==> q < |t|
      invariant |calls| == q - q0 && forall j :: 0 <= j < |calls| ==> calls[j] == (a, t[q0 + j])
      invariant go <==> q == q0 || f(a, t[q - 1])
      decreases |t| - q
    {
      var e := iter2.Next();
      go := f(a, e.value);
      calls := calls + [(a, e.value)];
      q := q + 1;
      more := iter2.HasNext();
    }
  }

  /** One row of `forPermutations`: the calls pairing `s[i]` with every element of `t`. */
  lemma PermutationsRowStep<E, T>(whole: seq<(E, T)>, s: seq<E>, t: seq<T>, i: nat, f: (E, T) -> bool,
                                  calls: seq<(E, T)>)
    requires i < |s|
    requires whole == calls + PermutationCalls(s[i..], t, f)
    ensures var go := t == [] || f(s[i], t[|t| - 1]);
      && (go ==> whole == (calls + RowWith(s[i], t)) + PermutationCalls(s[i + 1..], t, f))
      && (!go ==> whole == calls + RowWith(s[i], t))
  {
    var row, rest := RowWith(s[i], t), PermutationCalls(s[i + 1..], t, f);
    var go := t == [] || f(s[i], t[|t| - 1]);
    assert PermutationCalls(s[i..], t, f) == row + (if go then rest else []) by {
      assert s[i..][0] == s[i] && s[i..][1..] == s[i + 1..];
    }
    if go {
      assert calls + (row + rest) == (calls + row) + rest;
    } else {
      assert row + [] == row;
    }
  }

  /**
   * One pass of the outer loop of `forPermutations`: `iter1` yields the next
   * element `a`, which is paired with every element of the list of `iter2`;
   * `more` is the next `iter1.hasNext()`.
   */
  method PermutationRow<E(==), T(==)>(iter1: LinkedListIterator<E>, iter2: LinkedListIterator<T>, f: (E, T) -> bool)
    returns (go: bool, calls: seq<(E, T)>, more: bool)
    requires iter1.Valid() && iter1.pos < |iter1.list.Contents|
    requires iter2.Valid() && iter2.pos == 0 && iter2.startElement == iter2.list.first
    requires iter1 != iter2 && iter1 !in iter2.list.Repr && iter2 !in iter1.list.Repr
    modifies iter1, iter2
    ensures iter1.Valid() && iter1.pos == old(iter1.pos) + 1
    ensures iter2.Valid() && iter2.pos == 0 && iter2.startElement == iter2.list.first
    ensures more <==> iter1.pos < |iter1.list.Contents|
    ensures var s, t := iter1.list.Contents, iter2.list.Contents;
      && calls == RowWith(s[old(iter1.pos)], t)
      && (go <==> t == [] || f(s[old(iter1.pos)], t[|t| - 1]))
  {
    var elm := iter1.Next();
    go, calls := CallWithAll(elm.value, iter2, f);
    more := iter1.HasNext();
  }

  /**
   * `forPermutations(l1, l2, func)`: pairs every element of `l1` with every
   * element of `l2`, resetting the inner iterator after each row; the stop
   * flag is only checked by the outer loop. Returns the arguments of the
   * calls made.
   */
  method ForPermutations<E(==), T(==)>(l1: LinkedList<E>, l2: LinkedList<T>, f: (E, T) -> bool)
    returns (calls: seq<(E, T)>)
    requires l1.Valid() && l2.Valid()
    ensures calls == PermutationCalls(l1.Contents, l2.Contents, f)
  {
    ghost var s, t := l1.Contents, l2.Contents;
    ghost var whole := PermutationCalls(s, t, f);
    var iter1 := l1.Iterator();
    var iter2 := l2.Iterator();
    var go := true;
    calls := [];
    ghost var i := 0;
    var more := iter1.HasNext();
    while more && go
      invariant iter1.Valid() && iter1.list == l1 && iter1.pos == i <= |s|
      invariant iter2.Valid() && iter2.list == l2 && iter2 != iter1
      invariant iter1 !in l2.Repr && iter2 !in l1.Repr
      invariant iter2.pos == 0 && iter2.startElement == l2.first
      invariant more <==> i < |s|
      invariant go ==> whole == calls + PermutationCalls(s[i..], t, f)
      invariant !go ==> whole == calls
      modifies iter1, iter2
      decreases |s| - i
    {
      PermutationsRowStep(whole, s, t, i, f, calls);
      var rowCalls;
      go, rowCalls, more := PermutationRow(iter1, iter2, f);
      calls := calls + rowCalls;
      i := i + 1;
    }
    assert go ==> s[i..] == [];
  }

  /**
   * `Dictionary`: a string-keyed map held in a plain object. A missing name
   * reads as `undefined`, modelled as `None`.
   */
  class Dictionary<E> {
    var dict: map<string, E>

    /** `new Dictionary(dict?)`: the given object, or a new empty one. */
    constructor (init: Option<map<string, E>>)
      ensures dict == (if init.Some? then init.value else map[])
    {
      dict := if init.Some? then init.value else map[];
    }

    /** `put(name, e)`: stores `e` under `name`, replacing any earlier value. */
    method Put(name: string, e: E)
      modifies this
      ensures dict == old(dict)[name := e]
    {
      dict := dict[name := e];
    }

    /** `get(name)`: the value stored under `name`, if any. */
    method Get(name: string) returns (r: Option<E>)
      ensures r.Some? <==> name in dict
      ensures r.Some? ==> r.value == dict[name]
    {
      r := if name in dict then Some(dict[name]) else None;
    }

    /** `has(name)`: whether a value is stored under `name`. */
    method Has(name: string) returns (b: bool)
      ensures b <==> name in dict
    {
      b := name in dict;
    }

    /** `remove(name)`: deletes `name` and returns the value it held, if any. */
    method Remove(name: string) returns (r: Option<E>)
      modifies this
      ensures r.Some? <==> name in old(dict)
      ensures r.Some? ==> r.value == old(dict)[name]
      ensures dict == old(dict) - {name}
    {
      r := if name in dict then Some(dict[name]) else None;
      dict := dict - {name};
    }
  }
}
