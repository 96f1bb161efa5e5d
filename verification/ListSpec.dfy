/**
 What the calls of `SingleLinkedList` mean, on values: the items in order, the cached count
 that wraps at 32 bits, and how many nodes were lost without being deleted.
 */
module ListSpec {
  import opened Common

  /**
   The value of a node. `data` is what `mData` points to: empty for a null pointer, otherwise
   `length` bytes and the closing NUL.
   */
  datatype Item = Item(data: seq<Byte>, length: U32, key: U64)

  const DEFAULT_ITEM: Item := Item([], 0, 0)

  predicate WellFormed(x: Item) {
    if x.data == [] then x.length == 0 else |x.data| == x.length + 1 && x.data[x.length] == 0
  }

  /** A copy: same bytes, NUL-terminated, with a key of its own. */
  function CopyOf(x: Item, key: U64): (c: Item)
    requires WellFormed(x)
    ensures WellFormed(c) && c.data != [] && c.length == x.length && c.key == key
    ensures x.data != [] ==> c.data == x.data
  {
    Item(x.data[..x.length] + [0], x.length, key)
  }

  datatype List = List(items: seq<Item>, count: U32, lost: nat)

  const EMPTY_LIST: List := List([], 0, 0)

  predicate AllWellFormed(items: seq<Item>) {
    forall i :: 0 <= i < |items| ==> WellFormed(items[i])
  }

  /** A call with the key the clock gives to the copy it makes. */
  datatype Call =
    | InsertAtEnd(item: Item, key: U64)
    | InsertAtStart(item: Item, key: U64)
    | InsertAtNth(n: U32, item: Item, key: U64)
    | Reverse
    | DeleteFront
    | DeleteBack
    | DeleteNth(n: U32)
    | DeleteByKey(pKey: U64)
    | PopFront(key: U64)
    | PopBack(key: U64)
    | Front(key: U64)
    | Search(pKey: U64, key: U64)
    | Clear

  /** Where the code does not dereference a null pointer: deleteByKey must not match the head. */
  predicate Safe(l: List, c: Call) {
    match c
    case InsertAtEnd(x, _) => WellFormed(x)
    case InsertAtStart(x, _) => WellFormed(x)
    case InsertAtNth(_, x, _) => WellFormed(x)
    case DeleteByKey(k) => l.items != [] ==> l.items[0].key != k
    case _ => true
  }

  /** The index insertAtNth walks to: `nthPosition - 1` on `unsigned int`. */
  function Target(n: U32): U32 { Dec(n) }

  function Reversed<T>(s: seq<T>): (r: seq<T>)
    ensures |r| == |s|
    ensures forall i :: 0 <= i < |s| ==> r[i] == s[|s| - 1 - i]
  {
    seq(|s|, i requires 0 <= i < |s| => s[|s| - 1 - i])
  }

  function Without<T>(s: seq<T>, i: nat): (r: seq<T>)
    requires i < |s|
    ensures |r| == |s| - 1
    ensures forall j :: 0 <= j < |r| ==> r[j] == s[if j < i then j else j + 1]
  {
    s[..i] + s[i + 1..]
  }

  function With<T>(s: seq<T>, i: nat, x: T): (r: seq<T>)
    requires i <= |s|
    ensures |r| == |s| + 1
    ensures forall j :: 0 <= j < |r| ==> r[j] == if j < i then s[j] else if j == i then x else s[j - 1]
  {
    s[..i] + [x] + s[i..]
  }

  /** The position of the first item with key `k`, or the length. */
  function IndexOf(items: seq<Item>, k: U64): (i: nat)
    ensures i <= |items|
    ensures i < |items| ==> items[i].key == k
    ensures forall j :: 0 <= j < i ==> items[j].key != k
  {
    if items == [] || items[0].key == k then 0 else 1 + IndexOf(items[1..], k)
  }

  function Inserted(l: List, i: nat, x: Item): List
    requires i <= |l.items|
  {
    l.(items := With(l.items, i, x), count := Inc(l.count))
  }

  function Removed(l: List, i: nat): List
    requires i < |l.items|
  {
    l.(items := Without(l.items, i), count := Dec(l.count))
  }

  function AfterInsertAtNth(l: List, p: U32, x: Item): List {
    if Target(p) <= |l.items| then Inserted(l, Target(p), x) else l.(lost := l.lost + 1)
  }

  function AfterDeleteFront(l: List): List {
    if l.items == [] then l else Removed(l, 0)
  }

  function AfterDeleteBack(l: List): List {
    if l.items == [] then l else Removed(l, |l.items| - 1)
  }

  /** Position 1 keeps the count; a position past the end drops it. */
  function AfterDeleteNth(l: List, p: U32): List {
    if l.items == [] || p == 0 then l
    else if p == 1 then l.(items := Without(l.items, 0))
    else if p <= |l.items| then Removed(l, p - 1)
    else l.(count := Dec(l.count))
  }

  function AfterDeleteByKey(l: List, k: U64): List {
    var i := IndexOf(l.items, k);
    if i == |l.items| then l else Removed(l, i)
  }

  /** On one or two items the whole list goes, and with two the second node is not deleted. */
  function AfterPopBack(l: List): List {
    if 1 <= |l.items| <= 2 then List([], Dec(l.count), l.lost + |l.items| - 1) else AfterDeleteBack(l)
  }

  function AfterClear(l: List): List {
    l.(items := [], count := 0)
  }

  /** What front and popFront return. */
  function FirstOf(l: List, key: U64): Item
    requires AllWellFormed(l.items)
  {
    if l.items == [] then DEFAULT_ITEM else CopyOf(l.items[0], key)
  }

  /** What popBack returns: the last item only when there are three or more. */
  function PoppedBack(l: List, key: U64): Item
    requires AllWellFormed(l.items)
  {
    if |l.items| <= 2 then DEFAULT_ITEM else CopyOf(l.items[|l.items| - 1], key)
  }

  /** What search returns. */
  function Found(l: List, pKey: U64, key: U64): Item
    requires AllWellFormed(l.items)
  {
    var i := IndexOf(l.items, pKey);
    if i == |l.items| then DEFAULT_ITEM else CopyOf(l.items[i], key)
  }

  function After(l: List, c: Call): List
    requires AllWellFormed(l.items) && Safe(l, c)
  {
    match c
    case InsertAtEnd(x, k) => Inserted(l, |l.items|, CopyOf(x, k))
    case InsertAtStart(x, k) => Inserted(l, 0, CopyOf(x, k))
    case InsertAtNth(p, x, k) => AfterInsertAtNth(l, p, CopyOf(x, k))
    case Reverse => l.(items := Reversed(l.items))
    case DeleteFront => AfterDeleteFront(l)
    case DeleteBack => AfterDeleteBack(l)
    case DeleteNth(p) => AfterDeleteNth(l, p)
    case DeleteByKey(k) => AfterDeleteByKey(l, k)
    case PopFront(_) => AfterDeleteFront(l)
    case PopBack(_) => AfterPopBack(l)
    case Front(_) => l
    case Search(_, _) => l
    case Clear => AfterClear(l)
  }

  lemma EditsAreWellFormed(items: seq<Item>)
    requires AllWellFormed(items)
    ensures AllWellFormed([]) && AllWellFormed(Reversed(items))
    ensures forall i :: 0 <= i < |items| ==> AllWellFormed(Without(items, i))
    ensures forall i, x :: 0 <= i <= |items| && WellFormed(x) ==> AllWellFormed(With(items, i, x))
  {
    hide WellFormed;
  }

  lemma AfterIsWellFormed(l: List, c: Call)
    requires AllWellFormed(l.items) && Safe(l, c)
    ensures AllWellFormed(After(l, c).items)
  {
    hide AllWellFormed, WellFormed, CopyOf, With, Without, Reversed, IndexOf;
    EditsAreWellFormed(l.items);
  }

  // ----- laws between calls -----

  /** From 1 to length + 1, and at 0 only on a list of 2^32 - 1 items or more. */
  predicate InsertsAt(n: U32, length: nat) {
    1 <= n <= length + 1 || (n == 0 && length >= TWO_32 - 1)
  }

  /** `insertAtNth(n)` succeeds exactly there. */
  lemma InsertAtNthSucceeds(l: List, n: U32, x: Item, k: U64)
    requires AllWellFormed(l.items) && WellFormed(x)
    ensures |After(l, InsertAtNth(n, x, k)).items| == |l.items| + 1 <==>
            InsertsAt(n, |l.items|)
  {
  }

  lemma ReverseTwice(l: List)
    requires AllWellFormed(l.items)
    ensures After(After(l, Reverse), Reverse) == l
  {
    AfterIsWellFormed(l, Reverse);
    assert Reversed(Reversed(l.items)) == l.items;
  }

  /** deleteNth undoes insertAtNth on the items; on the count only when n is not 1. */
  lemma DeleteUndoesInsert(l: List, n: U32, x: Item, k: U64)
    requires AllWellFormed(l.items) && WellFormed(x) && 1 <= n <= |l.items| + 1
    ensures var m := After(l, InsertAtNth(n, x, k));
            && AllWellFormed(m.items)
            && After(m, DeleteNth(n)).items == l.items
            && (After(m, DeleteNth(n)).count == l.count <==> n != 1)
  {
    var m := After(l, InsertAtNth(n, x, k));
    AfterIsWellFormed(l, InsertAtNth(n, x, k));
    assert After(m, DeleteNth(n)).items == l.items;
  }

  // What the calls at the ends of a list are.

  lemma InsertionsAre(l: List, x: Item, k: U64)
    requires AllWellFormed(l.items) && WellFormed(x)
    ensures After(l, InsertAtStart(x, k)) == Inserted(l, 0, CopyOf(x, k))
    ensures After(l, InsertAtEnd(x, k)) == Inserted(l, |l.items|, CopyOf(x, k))
    ensures AllWellFormed(With(l.items, 0, CopyOf(x, k))) && AllWellFormed(With(l.items, |l.items|, CopyOf(x, k)))
  {
    hide CopyOf, WellFormed, AllWellFormed, Reversed, IndexOf;
    AfterIsWellFormed(l, InsertAtStart(x, k));
    AfterIsWellFormed(l, InsertAtEnd(x, k));
  }

  lemma RemovalsAre(l: List, k: U64)
    requires AllWellFormed(l.items) && l.items != []
    ensures After(l, DeleteFront) == After(l, PopFront(k)) == Removed(l, 0)
    ensures After(l, DeleteBack) == Removed(l, |l.items| - 1)
    ensures |l.items| >= 3 ==> After(l, PopBack(k)) == Removed(l, |l.items| - 1)
    ensures After(l, Front(k)) == l
  {
    hide AllWellFormed, CopyOf, Reversed, IndexOf, Without;
  }

  lemma ReverseIs(l: List)
    requires AllWellFormed(l.items)
    ensures After(l, Reverse) == l.(items := Reversed(l.items)) && AllWellFormed(Reversed(l.items))
  {
    hide CopyOf, WellFormed, AllWellFormed, Reversed, IndexOf;
    AfterIsWellFormed(l, Reverse);
  }

  lemma WithShows<T>(s: seq<T>, i: nat, x: T)
    requires i <= |s|
    ensures |With(s, i, x)| == |s| + 1 && With(s, i, x)[i] == x && (i > 0 ==> With(s, i, x)[0] == s[0])
  {
  }

  lemma RemovedUndoesInserted(l: List, i: nat, c: Item)
    requires i <= |l.items|
    ensures |With(l.items, i, c)| == |l.items| + 1 && Removed(Inserted(l, i, c), i) == l
  {
    hide With, Without;
    WithShows(l.items, i, c);
    WithoutUndoesWith(l.items, i, c);
  }

  lemma CopyOfCopy(x: Item, k: U64, k': U64)
    requires WellFormed(x)
    ensures CopyOf(CopyOf(x, k), k') == CopyOf(x, k')
  {
  }

  lemma EndsCommute(s: seq<Item>, c: Item)
    requires s != []
    ensures |With(s, |s|, c)| == |s| + 1 && |Without(s, 0)| == |s| - 1
    ensures Without(With(s, |s|, c), 0) == With(Without(s, 0), |s| - 1, c)
  {
    assert Without(s, 0) == s[1..];
  }

  lemma ReversedWith(s: seq<Item>, c: Item)
    ensures Reversed(With(s, 0, c)) == With(Reversed(s), |s|, c)
  {
  }

  /** Popping the front undoes an insertion at the start and returns the item under a new key. */
  lemma PopUndoesInsert(l: List, x: Item, k: U64, k': U64)
    requires AllWellFormed(l.items) && WellFormed(x)
    ensures var m := After(l, InsertAtStart(x, k));
            AllWellFormed(m.items) && After(m, PopFront(k')) == l && FirstOf(m, k') == CopyOf(x, k')
  {
    hide After, CopyOf, With, Without, Reversed, WellFormed, AllWellFormed;
    var m := Inserted(l, 0, CopyOf(x, k));
    InsertionsAre(l, x, k);
    RemovedUndoesInserted(l, 0, CopyOf(x, k));
    RemovalsAre(m, k');
    CopyOfCopy(x, k, k');
    WithShows(l.items, 0, CopyOf(x, k));
  }

  /** Deleting or popping the back undoes an insertion at the end; popBack only behind two items or more. */
  lemma BackUndoesEnd(l: List, x: Item, k: U64, k': U64)
    requires AllWellFormed(l.items) && WellFormed(x)
    ensures var m := After(l, InsertAtEnd(x, k));
            && AllWellFormed(m.items) && After(m, DeleteBack) == l
            && (|l.items| >= 2 ==> After(m, PopBack(k')) == l && PoppedBack(m, k') == CopyOf(x, k'))
  {
    hide After, CopyOf, With, Without, Reversed, WellFormed, AllWellFormed;
    var m := Inserted(l, |l.items|, CopyOf(x, k));
    InsertionsAre(l, x, k);
    RemovedUndoesInserted(l, |l.items|, CopyOf(x, k));
    RemovalsAre(m, k');
    CopyOfCopy(x, k, k');
    WithShows(l.items, |l.items|, CopyOf(x, k));
  }

  /** Deleting the front undoes an insertion at the start, which front shows. */
  lemma FrontUndoesStart(l: List, x: Item, k: U64, k': U64)
    requires AllWellFormed(l.items) && WellFormed(x)
    ensures var m := After(l, InsertAtStart(x, k));
            && AllWellFormed(m.items) && After(m, DeleteFront) == l
            && FirstOf(m, k') == CopyOf(x, k') && After(m, Front(k')) == m
  {
    hide After, CopyOf, With, Without, Reversed, WellFormed, AllWellFormed;
    var m := Inserted(l, 0, CopyOf(x, k));
    InsertionsAre(l, x, k);
    RemovedUndoesInserted(l, 0, CopyOf(x, k));
    RemovalsAre(m, k');
    CopyOfCopy(x, k, k');
    WithShows(l.items, 0, CopyOf(x, k));
  }

  /** First in, first out: an insertion at the end and a popFront on a list that is not empty do not meet. */
  lemma EndAndFrontCommute(l: List, x: Item, k: U64, k': U64)
    requires AllWellFormed(l.items) && WellFormed(x) && l.items != []
    ensures var m := After(l, InsertAtEnd(x, k));
            && AllWellFormed(m.items) && FirstOf(m, k') == FirstOf(l, k')
            && AllWellFormed(After(l, PopFront(k')).items)
            && After(m, PopFront(k')) == After(After(l, PopFront(k')), InsertAtEnd(x, k))
  {
    hide After, CopyOf, With, Without, Reversed, WellFormed, AllWellFormed;
    var c := CopyOf(x, k);
    var m, n := Inserted(l, |l.items|, c), Removed(l, 0);
    InsertionsAre(l, x, k);
    RemovalsAre(l, k');
    RemovalsAre(m, k');
    WithShows(l.items, |l.items|, c);
    AfterIsWellFormed(l, PopFront(k'));
    InsertionsAre(n, x, k);
    EndsCommute(l.items, c);
  }

  /** Reversing turns an insertion at the start into one at the end. */
  lemma ReverseTurnsRound(l: List, x: Item, k: U64)
    requires AllWellFormed(l.items) && WellFormed(x)
    ensures AllWellFormed(After(l, InsertAtStart(x, k)).items) && AllWellFormed(After(l, Reverse).items)
    ensures After(After(l, InsertAtStart(x, k)), Reverse) == After(After(l, Reverse), InsertAtEnd(x, k))
  {
    hide After, CopyOf, With, Without, Reversed, WellFormed, AllWellFormed;
    InsertionsAre(l, x, k);
    ReverseIs(l);
    ReverseIs(Inserted(l, 0, CopyOf(x, k)));
    InsertionsAre(l.(items := Reversed(l.items)), x, k);
    ReversedWith(l.items, CopyOf(x, k));
  }

  /** popBack on one or two items empties the list and returns the default item. */
  lemma PopBackOfFew(l: List, k: U64)
    requires AllWellFormed(l.items) && 1 <= |l.items| <= 2
    ensures After(l, PopBack(k)).items == [] && After(l, PopBack(k)).count == Dec(l.count)
    ensures PoppedBack(l, k) == Item([], 0, 0)
  {
  }

  /** No item has the key. */
  predicate IsFresh(items: seq<Item>, k: U64) {
    forall i :: 0 <= i < |items| ==> items[i].key != k
  }

  lemma InsertAtNthIs(l: List, n: U32, x: Item, k: U64)
    requires AllWellFormed(l.items) && WellFormed(x) && 1 <= n <= |l.items| + 1
    ensures var m := After(l, InsertAtNth(n, x, k));
            m == Inserted(l, n - 1, CopyOf(x, k)) && AllWellFormed(m.items)
  {
    AfterIsWellFormed(l, InsertAtNth(n, x, k));
  }

  /** What is inserted under a fresh key is found by it, and changes what no other key finds. */
  lemma SearchFindsInserted(l: List, n: U32, x: Item, k: U64, k': U64, other: U64)
    requires AllWellFormed(l.items) && WellFormed(x) && 1 <= n <= |l.items| + 1 && IsFresh(l.items, k) && other != k
    ensures var m := After(l, InsertAtNth(n, x, k));
            && AllWellFormed(m.items)
            && Found(m, k, k') == CopyOf(x, k') && Found(l, k, k') == DEFAULT_ITEM
            && Found(m, other, k') == Found(l, other, k')
  {
    hide After, IndexOf, AllWellFormed, IsFresh;
    InsertAtNthIs(l, n, x, k);
    FreshKeyIsAt(l.items, n - 1, CopyOf(x, k));
    OtherKeyIsAt(l.items, n - 1, CopyOf(x, k), other);
  }

  /** deleteByKey undoes an insertion under a fresh key, unless it is at the head. */
  lemma KeyUndoesInsert(l: List, n: U32, x: Item, k: U64)
    requires AllWellFormed(l.items) && WellFormed(x) && 1 < n <= |l.items| + 1 && IsFresh(l.items, k)
    ensures var m := After(l, InsertAtNth(n, x, k));
            AllWellFormed(m.items) && Safe(m, DeleteByKey(k)) && After(m, DeleteByKey(k)) == l
  {
    var m := Inserted(l, n - 1, CopyOf(x, k));
    assert m.items[0] == l.items[0] && l.items[0].key != k;
    hide IndexOf, IsFresh, CopyOf, WellFormed, AllWellFormed;
    InsertAtNthIs(l, n, x, k);
    FreshKeyIsAt(l.items, n - 1, CopyOf(x, k));
    DeleteByKeyIs(m, k);
  }

  lemma DeleteByKeyIs(l: List, k: U64)
    requires AllWellFormed(l.items) && Safe(l, DeleteByKey(k))
    ensures After(l, DeleteByKey(k)) == AfterDeleteByKey(l, k)
  {
  }

  lemma WithoutUndoesWith<T>(s: seq<T>, i: nat, x: T)
    requires i <= |s|
    ensures Without(With(s, i, x), i) == s
  {
    var more := With(s, i, x);
    assert more[..i] == s[..i] && more[i + 1..] == s[i..];
    assert s == s[..i] + s[i..];
  }

  lemma IndexOfFresh(items: seq<Item>, i: nat, c: Item)
    requires i <= |items| && IsFresh(items, c.key)
    ensures IndexOf(items, c.key) == |items| && IndexOf(With(items, i, c), c.key) == i
  {
    hide IndexOf, IsFresh;
    FreshHasNone(items, c.key);
    IndexOfIs(items, c.key, |items|);
    var more := With(items, i, c);
    assert |more| == |items| + 1 && more[i] == c;
    forall j | 0 <= j < i ensures more[j].key != c.key {
      assert more[j] == items[j];
    }
    hide With;
    IndexOfIs(more, c.key, i);
  }

  lemma FreshHasNone(items: seq<Item>, k: U64)
    requires IsFresh(items, k)
    ensures forall i :: 0 <= i < |items| ==> items[i].key != k
  {
  }

  /** A fresh key is where its item was inserted, and taking the item out gives back the rest. */
  lemma FreshKeyIsAt(items: seq<Item>, i: nat, c: Item)
    requires i <= |items| && IsFresh(items, c.key)
    ensures IndexOf(items, c.key) == |items| && IndexOf(With(items, i, c), c.key) == i
    ensures Without(With(items, i, c), i) == items
  {
    hide IndexOf, With, Without, IsFresh;
    IndexOfFresh(items, i, c);
    WithoutUndoesWith(items, i, c);
  }

  lemma OtherKeyIsAt(items: seq<Item>, i: nat, c: Item, other: U64)
    requires i <= |items| && other != c.key
    ensures var j := IndexOf(items, other); IndexOf(With(items, i, c), other) == if j < i then j else j + 1
  {
    var j := IndexOf(items, other);
    hide IndexOf;
    IndexOfIs(With(items, i, c), other, if j < i then j else j + 1);
  }

  lemma {:induction false} IndexOfIs(items: seq<Item>, k: U64, i: nat)
    requires i <= |items| && (i < |items| ==> items[i].key == k)
    requires forall j :: 0 <= j < i ==> items[j].key != k
    ensures IndexOf(items, k) == i
  {
  }

  /** The calls that find nothing to do leave the items, and front and search always do. */
  lemma CallsThatKeepItems(l: List, n: U32, x: Item, k: U64, k': U64)
    requires AllWellFormed(l.items) && WellFormed(x)
    ensures After(l, DeleteNth(0)) == l
    ensures n > |l.items| ==> After(l, DeleteNth(n)).items == l.items
    ensures !InsertsAt(n, |l.items|) ==> After(l, InsertAtNth(n, x, k)) == l.(lost := l.lost + 1)
    ensures IsFresh(l.items, k) ==> Safe(l, DeleteByKey(k)) && After(l, DeleteByKey(k)) == l
    ensures After(l, Front(k')) == l && After(l, Search(k, k')) == l
    ensures l.items == [] ==>
              After(l, DeleteFront) == After(l, DeleteBack) == After(l, PopFront(k)) == After(l, PopBack(k)) == l
  {
    if IsFresh(l.items, k) {
      IndexOfIs(l.items, k, |l.items|);
    }
  }

  // ----- runs of calls -----

  /**
   The calls that leave the count and the length apart, since the last clear, and those that lose
   a node, since the start.
   */
  datatype Tally = Tally(
    firsts: nat,     // deleteNth(1) on a list that is not empty: an item goes, the count stays
    pairs: nat,      // popBack on two items: both go, the count drops by one
    past: nat,       // deleteNth past the end of a list that is not empty: nothing goes, the count drops
    allPairs: nat,   // popBack on two items: the second node is not deleted
    strays: nat)     // insertAtNth that does not succeed: the new node is not linked in

  function Tallied(t: Tally, l: List, c: Call): Tally {
    var n := |l.items|;
    match c
    case Clear => t.(firsts := 0, pairs := 0, past := 0)
    case DeleteNth(p) =>
      if n > 0 && p == 1 then t.(firsts := t.firsts + 1)
      else if n > 0 && p > n then t.(past := t.past + 1)
      else t
    case PopBack(_) => if n == 2 then t.(pairs := t.pairs + 1, allPairs := t.allPairs + 1) else t
    case InsertAtNth(p, _, _) => if InsertsAt(p, n) then t else t.(strays := t.strays + 1)
    case _ => t
  }

  /** The calls `cs`, each within its safe domain, lead from a new list to `l` with the tally `t`. */
  ghost predicate Reaches(cs: seq<Call>, l: List, t: Tally) {
    if cs == [] then l == EMPTY_LIST && t == Tally(0, 0, 0, 0, 0)
    else
      var n := |cs| - 1;
      exists m, u :: Reaches(cs[..n], m, u) && AllWellFormed(m.items) && Safe(m, cs[n])
                     && l == After(m, cs[n]) && t == Tallied(u, m, cs[n])
  }

  function Drift(t: Tally): int {
    t.firsts + t.pairs - t.past
  }

  /** How far the count is ahead of what the length and the tally explain. */
  function Excess(l: List, t: Tally): int {
    l.count - |l.items| - Drift(t)
  }

  lemma ShiftByWrap(x: int, y: int)
    requires x % TWO_32 == 0 && Wraps(y - x)
    ensures y % TWO_32 == 0
  {
  }

  predicate Wraps(e: int) {
    e == 0 || e == TWO_32 || e + TWO_32 == 0
  }

  predicate Inserts(c: Call) {
    c.InsertAtEnd? || c.InsertAtStart? || c.InsertAtNth?
  }

  lemma InsertWraps(l: List, t: Tally, c: Call)
    requires AllWellFormed(l.items) && Safe(l, c) && Inserts(c)
    ensures Wraps(Excess(After(l, c), Tallied(t, l, c)) - Excess(l, t))
  {
    hide AllWellFormed, CopyOf;
  }

  lemma DeleteNthWraps(l: List, t: Tally, c: Call)
    requires AllWellFormed(l.items) && Safe(l, c) && c.DeleteNth?
    ensures Wraps(Excess(After(l, c), Tallied(t, l, c)) - Excess(l, t))
  {
    hide AllWellFormed;
  }

  lemma CallWraps(l: List, t: Tally, c: Call)
    requires AllWellFormed(l.items) && Safe(l, c) && !c.Clear?
    ensures Wraps(Excess(After(l, c), Tallied(t, l, c)) - Excess(l, t))
  {
    hide AllWellFormed;
    if Inserts(c) {
      InsertWraps(l, t, c);
    } else if c.DeleteNth? {
      DeleteNthWraps(l, t, c);
    }
  }

  lemma ClearIs(l: List, t: Tally, c: Call)
    requires AllWellFormed(l.items) && Safe(l, c) && c.Clear?
    ensures After(l, c) == AfterClear(l) && Tallied(t, l, c) == t.(firsts := 0, pairs := 0, past := 0)
  {
    hide AllWellFormed, Safe, Inserted, Removed, Reversed, CopyOf, AfterClear;
    hide AfterInsertAtNth, AfterDeleteFront, AfterDeleteBack, AfterDeleteNth, AfterDeleteByKey, AfterPopBack;
  }

  lemma ClearHasNoExcess(l: List, t: Tally)
    ensures Excess(AfterClear(l), t.(firsts := 0, pairs := 0, past := 0)) == 0
  {
  }

  lemma CallKeepsExcess(l: List, t: Tally, c: Call)
    requires AllWellFormed(l.items) && Safe(l, c) && Excess(l, t) % TWO_32 == 0
    ensures Excess(After(l, c), Tallied(t, l, c)) % TWO_32 == 0
  {
    hide *;
    if c.Clear? {
      ClearIs(l, t, c);
      ClearHasNoExcess(l, t);
    } else {
      CallWraps(l, t, c);
      ShiftByWrap(Excess(l, t), Excess(After(l, c), Tallied(t, l, c)));
    }
  }

  lemma {:induction false} ExcessIsWraps(cs: seq<Call>, l: List, t: Tally)
    requires Reaches(cs, l, t)
    ensures Excess(l, t) % TWO_32 == 0
  {
    if cs != [] {
      var n := |cs| - 1;
      var m, u :| Reaches(cs[..n], m, u) && AllWellFormed(m.items) && Safe(m, cs[n])
                  && l == After(m, cs[n]) && t == Tallied(u, m, cs[n]);
      ExcessIsWraps(cs[..n], m, u);
      CallKeepsExcess(m, u, cs[n]);
    }
  }

  lemma CountFromExcess(count: U32, n: int)
    requires (count - n) % TWO_32 == 0
    ensures count == n % TWO_32
  {
  }

  /** After any run of calls the cached count is the length plus the tallied drift, modulo 2^32. */
  lemma CounterDrift(cs: seq<Call>, l: List, t: Tally)
    requires Reaches(cs, l, t)
    ensures l.count == (|l.items| + t.firsts + t.pairs - t.past) % TWO_32
  {
    hide Reaches;
    ExcessIsWraps(cs, l, t);
    var n := |l.items| + t.firsts + t.pairs - t.past;
    assert Excess(l, t) == l.count - n;
    hide *;
    CountFromExcess(l.count, n);
  }

  lemma OneMore(cs: seq<Call>, l: List, t: Tally, c: Call)
    requires Reaches(cs, l, t) && AllWellFormed(l.items) && Safe(l, c)
    ensures Reaches(cs + [c], After(l, c), Tallied(t, l, c))
  {
    hide After, Tallied;
    var more := cs + [c];
    assert more[..|more| - 1] == cs && more[|more| - 1] == c;
  }

  function OneItem(x: Item, k: U64): List
    requires WellFormed(x)
  {
    List([CopyOf(x, k)], 1, 0)
  }

  function TwoItems(x: Item, k: U64): List
    requires WellFormed(x)
  {
    List([CopyOf(x, k), CopyOf(x, k)], 2, 0)
  }

  lemma NothingReached()
    ensures Reaches([], EMPTY_LIST, Tally(0, 0, 0, 0, 0)) && AllWellFormed(EMPTY_LIST.items)
  {
  }

  lemma OneInserted(x: Item, k: U64)
    requires WellFormed(x)
    ensures var c, none := InsertAtEnd(x, k), Tally(0, 0, 0, 0, 0);
            && Safe(EMPTY_LIST, c) && Tallied(none, EMPTY_LIST, c) == none
            && AllWellFormed(EMPTY_LIST.items) && After(EMPTY_LIST, c) == OneItem(x, k)
  {
    hide CopyOf, WellFormed;
    assert AllWellFormed(EMPTY_LIST.items);
    hide AllWellFormed;
    assert After(EMPTY_LIST, InsertAtEnd(x, k)) == Inserted(EMPTY_LIST, 0, CopyOf(x, k));
    hide After;
    assert With([], 0, CopyOf(x, k)) == OneItem(x, k).items;
  }

  lemma TwoInserted(x: Item, k: U64)
    requires WellFormed(x)
    ensures var l, c, none := OneItem(x, k), InsertAtEnd(x, k), Tally(0, 0, 0, 0, 0);
            && Safe(l, c) && Tallied(none, l, c) == none
            && AllWellFormed(l.items) && After(l, c) == TwoItems(x, k)
  {
    hide CopyOf, WellFormed;
    var l := OneItem(x, k);
    assert AllWellFormed(l.items);
    hide AllWellFormed;
    assert After(l, InsertAtEnd(x, k)) == Inserted(l, 1, CopyOf(x, k));
    hide After;
    assert With(l.items, 1, CopyOf(x, k)) == TwoItems(x, k).items;
  }

  lemma OneReached(x: Item, k: U64)
    requires WellFormed(x)
    ensures AllWellFormed(OneItem(x, k).items) && Reaches([InsertAtEnd(x, k)], OneItem(x, k), Tally(0, 0, 0, 0, 0))
  {
    hide *;
    NothingReached();
    OneInserted(x, k);
    TwoInserted(x, k);
    OneMore([], EMPTY_LIST, Tally(0, 0, 0, 0, 0), InsertAtEnd(x, k));
    assert [] + [InsertAtEnd(x, k)] == [InsertAtEnd(x, k)];
  }

  lemma TwoReached(x: Item, k: U64)
    requires WellFormed(x)
    ensures Reaches([InsertAtEnd(x, k), InsertAtEnd(x, k)], TwoItems(x, k), Tally(0, 0, 0, 0, 0))
  {
    hide *;
    OneReached(x, k);
    TwoInserted(x, k);
    var c := InsertAtEnd(x, k);
    OneMore([c], OneItem(x, k), Tally(0, 0, 0, 0, 0), c);
    assert [c] + [c] == [c, c];
  }

  lemma DeleteNthOfOne(x: Item)
    requires WellFormed(x)
    ensures var l, none := List([x], 1, 0), Tally(0, 0, 0, 0, 0);
            && Safe(l, DeleteNth(1)) && Safe(l, DeleteNth(2))
            && After(l, DeleteNth(1)) == List([], 1, 0) && Tallied(none, l, DeleteNth(1)) == Tally(1, 0, 0, 0, 0)
            && After(l, DeleteNth(2)) == List([x], 0, 0) && Tallied(none, l, DeleteNth(2)) == Tally(0, 0, 1, 0, 0)
  {
  }

  lemma StrayOfNone(x: Item, k: U64)
    requires WellFormed(x)
    ensures var c, none := InsertAtNth(2, x, k), Tally(0, 0, 0, 0, 0);
            && AllWellFormed(EMPTY_LIST.items) && Safe(EMPTY_LIST, c)
            && After(EMPTY_LIST, c) == List([], 0, 1) && Tallied(none, EMPTY_LIST, c) == Tally(0, 0, 0, 0, 1)
  {
    hide CopyOf, WellFormed;
  }

  lemma StrayHappens(x: Item, k: U64)
    requires WellFormed(x)
    ensures Reaches([InsertAtNth(2, x, k)], List([], 0, 1), Tally(0, 0, 0, 0, 1))
  {
    var c := InsertAtNth(2, x, k);
    hide *;
    NothingReached();
    StrayOfNone(x, k);
    OneMore([], EMPTY_LIST, Tally(0, 0, 0, 0, 0), c);
    assert [] + [c] == [c];
  }

  lemma PopBackOfTwo(x: Item, k: U64)
    requires WellFormed(x)
    ensures var l, none := TwoItems(x, k), Tally(0, 0, 0, 0, 0);
            && AllWellFormed(l.items) && Safe(l, PopBack(k))
            && After(l, PopBack(k)) == List([], 1, 1) && Tallied(none, l, PopBack(k)) == Tally(0, 1, 0, 1, 0)
  {
    hide CopyOf, WellFormed;
  }

  lemma OneItemIs(x: Item, k: U64)
    requires WellFormed(x)
    ensures OneItem(x, k) == List([CopyOf(x, k)], 1, 0)
  {
  }

  lemma DeleteNthDrifts(x: Item, k: U64)
    requires WellFormed(x)
    ensures Reaches([InsertAtEnd(x, k), DeleteNth(1)], List([], 1, 0), Tally(1, 0, 0, 0, 0))
    ensures Reaches([InsertAtEnd(x, k), DeleteNth(2)], List([CopyOf(x, k)], 0, 0), Tally(0, 0, 1, 0, 0))
  {
    hide Reaches, CopyOf, WellFormed, AllWellFormed, After, Tallied, Safe;
    var first, past := DeleteNth(1), DeleteNth(2);
    OneItemIs(x, k);
    hide OneItem;
    OneReached(x, k);
    DeleteNthOfOne(CopyOf(x, k));
    var c := InsertAtEnd(x, k);
    OneMore([c], OneItem(x, k), Tally(0, 0, 0, 0, 0), first);
    OneMore([c], OneItem(x, k), Tally(0, 0, 0, 0, 0), past);
    assert [c] + [first] == [c, first] && [c] + [past] == [c, past];
  }

  lemma PopBackDrifts(x: Item, k: U64)
    requires WellFormed(x)
    ensures Reaches([InsertAtEnd(x, k), InsertAtEnd(x, k), PopBack(k)], List([], 1, 1), Tally(0, 1, 0, 1, 0))
  {
    hide *;
    TwoReached(x, k);
    PopBackOfTwo(x, k);
    var c := InsertAtEnd(x, k);
    OneMore([c, c], TwoItems(x, k), Tally(0, 0, 0, 0, 0), PopBack(k));
    assert [c, c] + [PopBack(k)] == [c, c, PopBack(k)];
  }

  /** Each of the three kinds of call does part the count from the length, and each of the two kinds loses a node. */
  lemma DriftHappens(x: Item, k: U64)
    requires WellFormed(x)
    ensures Reaches([InsertAtEnd(x, k), DeleteNth(1)], List([], 1, 0), Tally(1, 0, 0, 0, 0))
    ensures Reaches([InsertAtEnd(x, k), InsertAtEnd(x, k), PopBack(k)], List([], 1, 1), Tally(0, 1, 0, 1, 0))
    ensures Reaches([InsertAtEnd(x, k), DeleteNth(2)], List([CopyOf(x, k)], 0, 0), Tally(0, 0, 1, 0, 0))
    ensures Reaches([InsertAtNth(2, x, k)], List([], 0, 1), Tally(0, 0, 0, 0, 1))
  {
    hide *;
    DeleteNthDrifts(x, k);
    StrayHappens(x, k);
    PopBackDrifts(x, k);
  }

  lemma CallLoses(l: List, t: Tally, c: Call)
    requires AllWellFormed(l.items) && Safe(l, c)
    ensures After(l, c).lost - l.lost ==
            (Tallied(t, l, c).allPairs - t.allPairs) + (Tallied(t, l, c).strays - t.strays)
  {
    hide AllWellFormed, CopyOf;
  }

  /** After any run of calls the nodes lost are one for each popBack on two items and each insertAtNth out of range. */
  lemma {:induction false} LostExactly(cs: seq<Call>, l: List, t: Tally)
    requires Reaches(cs, l, t)
    ensures l.lost == t.allPairs + t.strays
  {
    hide After, Tallied;
    if cs != [] {
      var n := |cs| - 1;
      var m, u :| Reaches(cs[..n], m, u) && AllWellFormed(m.items) && Safe(m, cs[n])
                  && l == After(m, cs[n]) && t == Tallied(u, m, cs[n]);
      LostExactly(cs[..n], m, u);
      CallLoses(m, u, cs[n]);
    }
  }

  /** The calls that QueueContainer makes. */
  predicate IsQueueCall(c: Call) {
    c.InsertAtEnd? || c.PopFront? || c.Front? || c.Search? || c.Clear?
  }

  lemma {:induction false} QueueTallyIsZero(cs: seq<Call>, l: List, t: Tally)
    requires Reaches(cs, l, t) && forall i :: 0 <= i < |cs| ==> IsQueueCall(cs[i])
    ensures t == Tally(0, 0, 0, 0, 0)
  {
    if cs != [] {
      var n := |cs| - 1;
      var m, u :| Reaches(cs[..n], m, u) && AllWellFormed(m.items) && Safe(m, cs[n])
                  && l == After(m, cs[n]) && t == Tallied(u, m, cs[n]);
      QueueTallyIsZero(cs[..n], m, u);
      assert IsQueueCall(cs[n]);
    }
  }

  /** Used as a queue, the list always has an exact count (modulo 2^32) and loses no node. */
  lemma {:induction false} QueueCountIsExact(cs: seq<Call>, l: List, t: Tally)
    requires Reaches(cs, l, t) && forall i :: 0 <= i < |cs| ==> IsQueueCall(cs[i])
    ensures l.count == |l.items| % TWO_32 && l.lost == 0
  {
    CounterDrift(cs, l, t);
    LostExactly(cs, l, t);
    QueueTallyIsZero(cs, l, t);
  }
}
