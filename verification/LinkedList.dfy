/** The heap list of `LinkedList.h`: nodes linked by `mNext`, a cached count, and code that walks pointers. */
module LinkedList {
  import opened Common
  import opened ListSpec

  class SingleLLNode {
    var mData: seq<Byte>
    var mDataLength: U32
    var mKey: U64
    var mNext: SingleLLNode?

    constructor ()
      ensures Value() == DEFAULT_ITEM && mNext == null
    {
      mData, mDataLength, mKey, mNext := [], 0, 0, null;
    }

    function Value(): Item
      reads this`mData, this`mDataLength, this`mKey
    {
      Item(mData, mDataLength, mKey)
    }

    /** The assignment operator: copies the bytes, takes a new key and forgets the link. */
    method Assign(instance: Item, key: U64)
      requires WellFormed(instance)
      modifies this
      ensures Value() == CopyOf(instance, key) && mNext == null
    {
      mKey := key;
      mNext := null;
      mDataLength := instance.length;
      mData := instance.data[..mDataLength] + [0];
    }
  }

  // ----- chains of nodes -----

  function At(s: seq<SingleLLNode>, i: nat): SingleLLNode? {
    if i < |s| then s[i] else null
  }

  ghost predicate Distinct(s: seq<SingleLLNode>) {
    forall i, j :: 0 <= i < j < |s| ==> s[i] != s[j]
  }

  /** The nodes `s` are linked in order from `head` to null. */
  ghost predicate Chain(head: SingleLLNode?, s: seq<SingleLLNode>)
    reads s`mNext
  {
    head == At(s, 0) && forall i {:trigger s[i].mNext} :: 0 <= i < |s| ==> s[i].mNext == At(s, i + 1)
  }

  /** The nodes `s` hold `items`. */
  ghost predicate Hold(s: seq<SingleLLNode>, items: seq<Item>)
    reads s`mData, s`mDataLength, s`mKey
  {
    |items| == |s| && forall i :: 0 <= i < |s| ==> s[i].Value() == items[i]
  }

  /** `owned` is the nodes `s` and `lost` others. */
  ghost predicate Owns(owned: set<SingleLLNode>, s: seq<SingleLLNode>, lost: nat) {
    && (forall n :: n in s ==> n in owned)
    && |owned| == |s| + lost
  }

  lemma HoldWith(s: seq<SingleLLNode>, items: seq<Item>, i: nat, n: SingleLLNode)
    requires Hold(s, items) && AllWellFormed(items) && WellFormed(n.Value()) && i <= |s|
    ensures Hold(With(s, i, n), With(items, i, n.Value())) && AllWellFormed(With(items, i, n.Value()))
  {
  }

  lemma HoldWithout(s: seq<SingleLLNode>, items: seq<Item>, i: nat)
    requires Hold(s, items) && AllWellFormed(items) && i < |s|
    ensures Hold(Without(s, i), Without(items, i)) && AllWellFormed(Without(items, i))
  {
  }

  lemma OwnsWith(owned: set<SingleLLNode>, s: seq<SingleLLNode>, lost: nat, i: nat, n: SingleLLNode)
    requires Owns(owned, s, lost) && i <= |s| && n !in owned
    ensures Owns(owned + {n}, With(s, i, n), lost)
  {
  }

  lemma OwnsWithout(owned: set<SingleLLNode>, s: seq<SingleLLNode>, lost: nat, i: nat)
    requires Owns(owned, s, lost) && Distinct(s) && i < |s|
    ensures Owns(owned - {s[i]}, Without(s, i), lost) && s[i] in owned
  {
    assert s[i] in s;
  }

  lemma OwnsReversed(owned: set<SingleLLNode>, s: seq<SingleLLNode>, lost: nat)
    requires Owns(owned, s, lost)
    ensures Owns(owned, Reversed(s), lost)
  {
  }

  /** Linking `n` in before index `i`. */
  lemma Spliced(head: SingleLLNode?, s: seq<SingleLLNode>, i: nat, n: SingleLLNode)
    requires Distinct(s) && i <= |s| && n !in s && n.mNext == At(s, i)
    requires head == if i == 0 then n else At(s, 0)
    requires forall j {:trigger s[j].mNext} :: 0 <= j < |s| ==> s[j].mNext == if j + 1 == i then n else At(s, j + 1)
    ensures Chain(head, With(s, i, n)) && Distinct(With(s, i, n))
  {
  }

  /** Linking past index `i`. */
  lemma Cut(head: SingleLLNode?, s: seq<SingleLLNode>, i: nat)
    requires Distinct(s) && i < |s|
    requires head == At(s, if i == 0 then 1 else 0)
    requires forall j {:trigger s[j].mNext} :: 0 <= j < |s| ==> s[j].mNext == At(s, if j + 1 == i then i + 1 else j + 1)
    ensures Chain(head, Without(s, i)) && Distinct(Without(s, i))
  {
  }

  class SingleLinkedList {
    var mNodeCount: U32
    var mHeadNode: SingleLLNode?
    ghost var nodes: seq<SingleLLNode>           // the reachable nodes, in order
    ghost var items: seq<Item>                   // their values
    ghost var owned: set<SingleLLNode>           // the nodes allocated and not deleted
    ghost var lost: nat                          // how many of those are not reachable

    ghost predicate Valid()
      reads this, owned
    {
      && Owns(owned, nodes, lost)
      && Chain(mHeadNode, nodes)
      && Distinct(nodes)
      && Hold(nodes, items)
      && AllWellFormed(items)
    }

    ghost function View(): List
      reads this
    {
      List(items, mNodeCount, lost)
    }

    constructor ()
      ensures Valid() && View() == EMPTY_LIST && nodes == []
    {
      mNodeCount, mHeadNode := 0, null;
      nodes, items, owned, lost := [], [], {}, 0;
    }

    /** Allocates the node that holds a copy of `item`. */
    method NewNode(item: Item, key: U64) returns (n: SingleLLNode)
      requires WellFormed(item)
      ensures fresh(n) && n.Value() == CopyOf(item, key) && n.mNext == null
    {
      n := new SingleLLNode();
      n.Assign(item, key);
    }

    /** The walk to the last node; `prevNode` starts as `first`. */
    method LastNode(first: SingleLLNode?) returns (tempNode: SingleLLNode, prevNode: SingleLLNode?)
      requires Valid() && nodes != []
      ensures tempNode == nodes[|nodes| - 1]
      ensures prevNode == if |nodes| == 1 then first else nodes[|nodes| - 2]
    {
      tempNode, prevNode := mHeadNode, first;
      ghost var i := 0;
      while tempNode.mNext != null
        invariant 0 <= i < |nodes| && tempNode == nodes[i]
        invariant prevNode == if i == 0 then first else nodes[i - 1]
        decreases |nodes| - i
      {
        prevNode := tempNode;
        tempNode := tempNode.mNext;
        i := i + 1;
      }
    }

    /** The walk of at most `limit` links; `prevNode` starts as `first`. */
    method WalkTo(limit: U32, first: SingleLLNode?)
      returns (tempNode: SingleLLNode?, prevNode: SingleLLNode?, indexCount: U32)
      requires Valid()
      ensures indexCount == if limit <= |nodes| then limit else |nodes|
      ensures tempNode == At(nodes, indexCount)
      ensures prevNode == if indexCount == 0 then first else nodes[indexCount - 1]
    {
      tempNode, prevNode, indexCount := mHeadNode, first, 0;
      while indexCount < limit && tempNode != null
        invariant indexCount <= limit && indexCount <= |nodes| && tempNode == At(nodes, indexCount)
        invariant prevNode == if indexCount == 0 then first else nodes[indexCount - 1]
      {
        indexCount := indexCount + 1;
        prevNode := tempNode;
        tempNode := tempNode.mNext;
      }
    }

    /** The walk to the first node with key `pKey`. */
    method FindKey(pKey: U64) returns (tempNode: SingleLLNode?, prevNode: SingleLLNode?, ghost i: nat)
      requires Valid()
      ensures i == IndexOf(items, pKey) && tempNode == At(nodes, IndexOf(items, pKey))
      ensures prevNode == if i == 0 then null else nodes[i - 1]
    {
      tempNode, prevNode, i := mHeadNode, null, 0;
      while tempNode != null && pKey != tempNode.mKey
        invariant i <= |nodes| && tempNode == At(nodes, i)
        invariant prevNode == if i == 0 then null else nodes[i - 1]
        invariant forall j :: 0 <= j < i ==> items[j].key != pKey
        decreases |nodes| - i
      {
        assert nodes[i].Value() == items[i];
        prevNode := tempNode;
        tempNode := tempNode.mNext;
        i := i + 1;
      }
      if i < |nodes| {
        assert nodes[i].Value() == items[i];
      }
    }

    /** `n`, holding `x`, has been linked in before index `i`: the ghost state records it. */
    ghost method Recorded(n: SingleLLNode, i: nat, x: Item)
      requires i <= |nodes| && n !in owned && WellFormed(x) && n.Value() == x
      requires Chain(mHeadNode, With(nodes, i, n)) && Distinct(With(nodes, i, n))
      requires Hold(nodes, items) && AllWellFormed(items) && Owns(owned, nodes, lost)
      modifies this`nodes, this`items, this`owned
      ensures Valid() && owned == old(owned) + {n} && items == With(old(items), i, x)
    {
      HoldWith(nodes, items, i, n);
      OwnsWith(owned, nodes, lost, i, n);
      nodes, items, owned := With(nodes, i, n), With(items, i, x), owned + {n};
    }

    /** Puts `newNode`, which already links to index `i`, into the list behind `prevNode`. */
    method LinkIn(newNode: SingleLLNode, prevNode: SingleLLNode?, ghost i: nat, ghost x: Item)
      requires Valid() && i <= |nodes| && newNode !in owned
      requires WellFormed(x) && newNode.Value() == x && newNode.mNext == At(nodes, i)
      requires prevNode == if i == 0 then null else nodes[i - 1]
      modifies this, prevNode
      ensures Valid() && owned == old(owned) + {newNode}
      ensures View() == Inserted(old(View()), i, x)
    {
      if prevNode != null {
        prevNode.mNext := newNode;
      } else {
        mHeadNode := newNode;
      }
      mNodeCount := Inc(mNodeCount);
      Spliced(mHeadNode, nodes, i, newNode);
      Recorded(newNode, i, x);
    }

    method InsertAtEnd(item: Item, key: U64)
      requires Valid() && WellFormed(item)
      modifies this, owned
      ensures Valid() && fresh(owned - old(owned))
      ensures View() == Inserted(old(View()), |old(items)|, CopyOf(item, key))
    {
      var newNode := NewNode(item, key);
      var tempNode: SingleLLNode?, prevNode := null, null;
      if mHeadNode != null {
        tempNode, prevNode := LastNode(null);
      }
      LinkIn(newNode, tempNode, |nodes|, CopyOf(item, key));
    }

    method InsertAtStart(item: Item, key: U64)
      requires Valid() && WellFormed(item)
      modifies this, owned
      ensures Valid() && fresh(owned - old(owned))
      ensures View() == Inserted(old(View()), 0, CopyOf(item, key))
    {
      var newNode := NewNode(item, key);
      newNode.mNext := mHeadNode;
      LinkIn(newNode, null, 0, CopyOf(item, key));
    }

    method InsertAtNth(nthPosition: U32, item: Item, key: U64) returns (status: Status)
      requires Valid() && WellFormed(item)
      modifies this, owned
      ensures Valid() && fresh(owned - old(owned))
      ensures View() == AfterInsertAtNth(old(View()), nthPosition, CopyOf(item, key))
      ensures status == if Target(nthPosition) <= |old(items)| then SUCCESS else ERROR
    {
      hide AllWellFormed, Distinct;
      var newNode := NewNode(item, key);
      var tempNode, prevNode, indexCount := WalkTo(Dec(nthPosition), null);
      if indexCount != Dec(nthPosition) {
        owned, lost := owned + {newNode}, lost + 1;
        return ERROR;
      }
      newNode.mNext := tempNode;
      LinkIn(newNode, prevNode, indexCount, CopyOf(item, key));
      return SUCCESS;
    }

    /** Index `i` has been linked past and its node deleted: the ghost state records it. */
    ghost method Forgotten(i: nat)
      requires i < |nodes| && Chain(mHeadNode, Without(nodes, i)) && Distinct(nodes) && Distinct(Without(nodes, i))
      requires Hold(nodes, items) && AllWellFormed(items) && Owns(owned, nodes, lost)
      modifies this`nodes, this`items, this`owned
      ensures Valid() && owned == old(owned) - {old(nodes)[i]} && items == Without(old(items), i)
    {
      HoldWithout(nodes, items, i);
      OwnsWithout(owned, nodes, lost, i);
      nodes, items, owned := Without(nodes, i), Without(items, i), owned - {nodes[i]};
    }

    /** Links past `tempNode`, at index `i`, and deletes it. */
    method LinkOut(tempNode: SingleLLNode, prevNode: SingleLLNode?, ghost i: nat)
      requires Valid() && i < |nodes| && tempNode == nodes[i]
      requires prevNode == if i == 0 then null else nodes[i - 1]
      modifies this, prevNode
      ensures Valid() && owned == old(owned) - {tempNode}
      ensures View() == old(View()).(items := Without(old(items), i))
    {
      if prevNode != null {
        prevNode.mNext := tempNode.mNext;
      } else {
        mHeadNode := tempNode.mNext;
      }
      Cut(mHeadNode, nodes, i);
      Forgotten(i);
    }

    method DeleteFront()
      requires Valid()
      modifies this, owned
      ensures Valid() && owned <= old(owned) && View() == AfterDeleteFront(old(View()))
    {
      if mHeadNode == null {
        return;
      }
      LinkOut(mHeadNode, null, 0);
      mNodeCount := Dec(mNodeCount);
    }

    method DeleteBack()
      requires Valid()
      modifies this, owned
      ensures Valid() && owned <= old(owned) && View() == AfterDeleteBack(old(View()))
    {
      if mHeadNode == null {
        return;
      }
      var tempNode, prevNode := LastNode(null);
      LinkOut(tempNode, prevNode, |nodes| - 1);
      mNodeCount := Dec(mNodeCount);
    }

    method DeleteNth(nthPosition: U32)
      requires Valid()
      modifies this, owned
      ensures Valid() && owned <= old(owned) && View() == AfterDeleteNth(old(View()), nthPosition)
    {
      hide AllWellFormed, Distinct;
      if mHeadNode == null || nthPosition <= 0 {
        return;
      }
      if nthPosition == 1 {
        LinkOut(mHeadNode, null, 0);
        return;
      }
      var tempNode, prevNode, indexCount := WalkTo(nthPosition - 1, mHeadNode);
      if tempNode != null {
        LinkOut(tempNode, prevNode, indexCount);
      }
      mNodeCount := Dec(mNodeCount);
    }

    /** The code follows a null pointer when the head matches. */
    method DeleteByKey(pKey: U64)
      requires Valid() && (items != [] ==> items[0].key != pKey)
      modifies this, owned
      ensures Valid() && owned <= old(owned) && View() == AfterDeleteByKey(old(View()), pKey)
    {
      if mHeadNode == null {
        return;
      }
      var tempNode, prevNode, i := FindKey(pKey);
      if tempNode != null {
        LinkOut(tempNode, prevNode, i);
        mNodeCount := Dec(mNodeCount);
      }
    }

    method PopFront(key: U64) returns (output: Item)
      requires Valid()
      modifies this, owned
      ensures Valid() && owned <= old(owned) && View() == AfterDeleteFront(old(View()))
      ensures output == FirstOf(old(View()), key)
    {
      output := DEFAULT_ITEM;
      if mHeadNode == null {
        return;
      }
      assert nodes[0].Value() == items[0];
      output := CopyOf(mHeadNode.Value(), key);
      LinkOut(mHeadNode, null, 0);
      mNodeCount := Dec(mNodeCount);
    }

    /** Deletes the first node and forgets a second one. */
    method DropAll()
      requires Valid() && 1 <= |nodes| <= 2
      modifies this
      ensures Valid() && owned <= old(owned)
      ensures View() == List([], old(mNodeCount), old(lost) + |old(nodes)| - 1)
    {
      assert nodes[0] in nodes;
      nodes, items, owned, lost := [], [], owned - {mHeadNode}, lost + |nodes| - 1;
      mHeadNode := null;
    }

    method PopBack(key: U64) returns (output: Item)
      requires Valid()
      modifies this, owned
      ensures Valid() && owned <= old(owned) && View() == AfterPopBack(old(View()))
      ensures output == PoppedBack(old(View()), key)
    {
      output := DEFAULT_ITEM;
      if mHeadNode == null {
        return;
      }
      LastTwo();
      var tempNode, prevNode := LastNode(mHeadNode);
      hide Chain, Distinct, Hold, Owns, AllWellFormed, WellFormed, CopyOf;
      if prevNode == mHeadNode {
        DropAll();
      } else {
        output := CopyOut(tempNode, prevNode, key);
      }
      mNodeCount := Dec(mNodeCount);
    }

    lemma LastTwo()
      requires Valid() && nodes != []
      ensures |items| == |nodes| && mHeadNode == nodes[0]
      ensures |nodes| >= 2 ==> nodes[|nodes| - 2] in owned
      ensures |nodes| >= 3 ==> nodes[|nodes| - 2] != nodes[0]
    {
    }

    /** Copies the last node's value and links the node out. */
    method CopyOut(tempNode: SingleLLNode, prevNode: SingleLLNode?, key: U64) returns (output: Item)
      requires Valid() && |nodes| >= 2 && tempNode == nodes[|nodes| - 1] && prevNode == nodes[|nodes| - 2]
      modifies this, prevNode
      ensures Valid() && owned == old(owned) - {tempNode}
      ensures old(|items| > 0 && AllWellFormed(items)) && output == CopyOf(old(items[|items| - 1]), key)
      ensures View() == old(View()).(items := Without(old(items), |old(items)| - 1))
    {
      assert nodes[|nodes| - 1].Value() == items[|nodes| - 1];
      output := CopyOf(tempNode.Value(), key);
      hide WellFormed, CopyOf;
      LinkOut(tempNode, prevNode, |nodes| - 1);
    }

    method Front(key: U64) returns (output: Item)
      requires Valid()
      ensures output == FirstOf(View(), key)
    {
      if mHeadNode == null {
        return DEFAULT_ITEM;
      }
      assert nodes[0].Value() == items[0];
      return CopyOf(mHeadNode.Value(), key);
    }

    method Search(pKey: U64, key: U64) returns (output: Item)
      requires Valid()
      ensures output == Found(View(), pKey, key)
    {
      var tempNode, prevNode, i := FindKey(pKey);
      if tempNode == null {
        return DEFAULT_ITEM;
      }
      assert nodes[i].Value() == items[i];
      return CopyOf(tempNode.Value(), key);
    }

    method Clear()
      requires Valid()
      modifies this
      ensures Valid() && owned <= old(owned) && View() == AfterClear(old(View())) && nodes == []
    {
      var tempNode := mHeadNode;
      while tempNode != null
        invariant Chain(tempNode, nodes) && Distinct(nodes) && Owns(owned, nodes, lost)
        invariant owned <= old(owned) && lost == old(lost)
        decreases |nodes|
      {
        var temp := tempNode.mNext;
        OwnsWithout(owned, nodes, lost, 0);
        nodes, owned := Without(nodes, 0), owned - {tempNode};
        tempNode := temp;
      }
      mHeadNode := tempNode;
      items := [];
      mNodeCount := 0;
    }

    /** `k` links have been turned round. */
    static ghost predicate HalfReversed(s: seq<SingleLLNode>, k: nat)
      reads s`mNext
    {
      forall j {:trigger s[j].mNext} :: 0 <= j < |s| ==>
        s[j].mNext == if j >= k then At(s, j + 1) else if j == 0 then null else s[j - 1]
    }

    static lemma AllReversed(s: seq<SingleLLNode>, items: seq<Item>)
      requires HalfReversed(s, |s|) && Distinct(s) && Hold(s, items) && s != []
      ensures Chain(s[|s| - 1], Reversed(s)) && Distinct(Reversed(s)) && Hold(Reversed(s), Reversed(items))
    {
      var r := Reversed(s);
      forall i | 0 <= i < |r| ensures r[i].mNext == At(r, i + 1) {
        var j := |s| - 1 - i;
        assert s[j].mNext == if j == 0 then null else s[j - 1];
      }
    }

    static lemma TurnedOne(s: seq<SingleLLNode>, k: nat)
      requires k < |s| && Distinct(s)
      requires forall j {:trigger s[j].mNext} :: 0 <= j < |s| && j != k ==>
                 s[j].mNext == if j >= k then At(s, j + 1) else if j == 0 then null else s[j - 1]
      requires s[k].mNext == if k == 0 then null else s[k - 1]
      ensures HalfReversed(s, k + 1)
    {
    }

    /** Turns every link round. */
    method TurnLinks() returns (tempHeadNode: SingleLLNode)
      requires Chain(mHeadNode, nodes) && Distinct(nodes) && nodes != []
      modifies nodes`mNext
      ensures HalfReversed(nodes, |nodes|) && tempHeadNode == nodes[|nodes| - 1]
    {
      ghost var s, k := nodes, 0;
      var tempNode: SingleLLNode?, headNode: SingleLLNode? := mHeadNode, null;
      while tempNode != null
        invariant nodes == s && k <= |s| && HalfReversed(s, k)
        invariant tempNode == At(s, k) && (tempNode == null ==> k == |s|)
        invariant headNode == (if k == 0 then null else s[k - 1]) && (headNode == null ==> k == 0)
        decreases |s| - k
      {
        assert tempNode == s[k] && forall j :: 0 <= j < |s| && j != k ==> s[j] != tempNode;
        var nextNode := tempNode.mNext;
        if headNode == null {
          headNode := tempNode;
          headNode.mNext := null;
        } else {
          tempNode.mNext := headNode;
          headNode := tempNode;
        }
        TurnedOne(s, k);
        tempNode := nextNode;
        k := k + 1;
      }
      tempHeadNode := headNode;
    }

    /** Every link has been turned round: the ghost state records it. */
    ghost method Turned()
      requires HalfReversed(nodes, |nodes|) && nodes != [] && mHeadNode == nodes[|nodes| - 1]
      requires Distinct(nodes) && Hold(nodes, items) && AllWellFormed(items) && Owns(owned, nodes, lost)
      modifies this`nodes, this`items
      ensures Valid() && items == Reversed(old(items))
    {
      AllReversed(nodes, items);
      OwnsReversed(owned, nodes, lost);
      nodes, items := Reversed(nodes), Reversed(items);
    }

    method Reverse()
      requires Valid()
      modifies this, owned
      ensures Valid() && owned == old(owned)
      ensures View() == old(View()).(items := Reversed(old(items)))
    {
      if mHeadNode == null {
        return;
      }
      assert nodes != [];
      hide HalfReversed, Owns, AllWellFormed, Distinct, Reversed, Hold, Chain;
      mHeadNode := TurnLinks();
      Turned();
    }

    method GetLength() returns (n: U32)
      ensures n == View().count
    {
      return mNodeCount;
    }
  }
}
