/** The typed event queues: `EventMessageInterface`, `EventQueueInterface` and `LoggerEventQueue` over the heap list. */
module EventQueue {
  import opened Common
  import opened ListSpec
  import opened LinkedList
  import opened EventMessage

  /** The three concrete queues and message classes share one body, modelled once. */
  class EventMessageInterface {
    var eventMsg: Event
    var mData: Item

    /** A message object is usable once its event has the buffer's size. */
    predicate Valid()
      reads this
    {
      IsEvent(eventMsg) && WellFormed(mData)
    }

    constructor ()
      ensures Valid() && eventMsg == EventOf([]) && mData == DEFAULT_ITEM
    {
      eventMsg := EventOf([]);
      mData := DEFAULT_ITEM;
    }

    method PackMessage(key: U64)
      requires Valid()
      modifies this`mData
      ensures Valid() && IsPacked(mData) && Carried(mData) == eventMsg && mData.key == key
    {
      mData := Packed(eventMsg, key);
      UnpackPacked(eventMsg, key);
    }

    /** Reads EVENT_SIZE bytes through `mData`: the node must be that long. */
    method UnpackMessage()
      requires Valid() && IsPacked(mData)
      modifies this`eventMsg
      ensures Valid() && eventMsg == Carried(mData)
    {
      eventMsg := EventAt(mData.data);
    }

    method SetMessage(msg: seq<Byte>, key: U64)
      requires Valid() && |msg| <= MAX_BUFFER_SIZE
      modifies this
      ensures Valid() && eventMsg == EventOf(msg) && IsPacked(mData) && Carried(mData) == eventMsg
    {
      var mMessage := Zeros(MAX_BUFFER_SIZE);
      mMessage := msg + mMessage[|msg|..];
      eventMsg := Event(mMessage, |msg|);
      assert eventMsg == EventOf(msg);
      PackMessage(key);
    }

    method SetNode(node: Item, key: U64)
      requires Valid() && WellFormed(node)
      modifies this`mData
      ensures Valid() && mData == CopyOf(node, key)
    {
      mData := CopyOf(node, key);
    }
  }

  /** The events carried by the nodes of a queue. */
  function Events(items: seq<Item>): (es: seq<Event>)
    requires AllPacked(items)
    ensures |es| == |items|
  {
    seq(|items|, i requires 0 <= i < |items| => Carried(items[i]))
  }

  predicate AllPacked(items: seq<Item>) {
    forall i :: 0 <= i < |items| ==> IsPacked(items[i])
  }

  class EventQueueInterface {
    const mEventQueue: SingleLinkedList

    ghost predicate Valid()
      reads this, mEventQueue, mEventQueue.owned
    {
      && mEventQueue.Valid()
      && AllPacked(mEventQueue.items)
      && mEventQueue.mNodeCount == |mEventQueue.items| % TWO_32
    }

    /** The events waiting, oldest first. */
    ghost function Contents(): seq<Event>
      requires Valid()
      reads this, mEventQueue, mEventQueue.owned
    {
      Events(mEventQueue.items)
    }

    constructor ()
      ensures Valid() && Contents() == [] && fresh(mEventQueue) && fresh(mEventQueue.owned)
    {
      mEventQueue := new SingleLinkedList();
    }

    method GetQueueLength() returns (n: U32)
      requires Valid()
      ensures n == |Contents()| % TWO_32
    {
      n := mEventQueue.GetLength();
    }

    method PushEvent(msg: EventMessageInterface, key: U64)
      requires Valid() && msg.Valid() && IsPacked(msg.mData)
      modifies mEventQueue, mEventQueue.owned
      ensures Valid() && fresh(mEventQueue.owned - old(mEventQueue.owned))
      ensures Contents() == old(Contents()) + [old(Carried(msg.mData))]
    {
      mEventQueue.InsertAtEnd(msg.mData, key);
    }

    /** The message object that getEvent and front build from a node. */
    method Unpack(data: Item, key: U64) returns (ret: EventMessageInterface)
      requires IsPacked(data)
      ensures fresh(ret) && ret.Valid() && ret.eventMsg == Carried(data)
    {
      ret := new EventMessageInterface();
      ret.SetNode(data, key);
      ret.UnpackMessage();
    }

    method PopEvent(key: U64) returns (data: Item)
      requires Valid() && Contents() != []
      modifies mEventQueue, mEventQueue.owned
      ensures Valid() && mEventQueue.owned <= old(mEventQueue.owned)
      ensures Contents() == old(Contents())[1..]
      ensures IsPacked(data) && Carried(data) == old(Contents())[0]
    {
      hide SingleLinkedList.Valid, CopyOf;
      data := mEventQueue.PopFront(key);
    }

    method FrontEvent(key: U64) returns (data: Item)
      requires Valid() && Contents() != []
      ensures IsPacked(data) && Carried(data) == Contents()[0]
    {
      data := mEventQueue.Front(key);
    }

    /** Pops and unpacks; on an empty queue the code would unpack a node of no bytes. */
    method GetEvent(key: U64) returns (ret: EventMessageInterface)
      requires Valid() && Contents() != []
      modifies mEventQueue, mEventQueue.owned
      ensures Valid() && mEventQueue.owned <= old(mEventQueue.owned)
      ensures Contents() == old(Contents())[1..]
      ensures fresh(ret) && ret.Valid() && ret.eventMsg == old(Contents())[0]
    {
      var data := PopEvent(key);
      ret := Unpack(data, key);
    }

    method Front(key: U64) returns (ret: EventMessageInterface)
      requires Valid() && Contents() != []
      ensures Valid() && Contents() == old(Contents())
      ensures fresh(ret) && ret.Valid() && ret.eventMsg == Contents()[0]
    {
      var data := FrontEvent(key);
      ret := Unpack(data, key);
    }
  }
}
