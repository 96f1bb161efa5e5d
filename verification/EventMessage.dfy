/** The byte codec of `EventMessageInterface.h`: structs packed into the fixed-size nodes of the event queues. */
module EventMessage {
  import opened Common
  import opened ListSpec

  const DB_TABLE_BUFFER_SIZE: nat := 128
  const STRING_SIZE: nat := 10 * 1024
  const MAX_BUFFER_SIZE: nat := STRING_SIZE + 1024

  /** sizeof(EventMessage): the buffer and an unsigned int. */
  const EVENT_SIZE: nat := MAX_BUFFER_SIZE + 4

  /** sizeof of the three structs sent as messages. */
  const LOGGER_MESSAGE_SIZE: nat := STRING_SIZE + 4
  const DB_MESSAGE_SIZE: nat := DB_TABLE_BUFFER_SIZE + STRING_SIZE + 4
  const HTTP_MESSAGE_SIZE: nat := 4

  // ----- unsigned int in memory, low byte first -----

  function Bytes32(n: U32): (b: seq<Byte>)
    ensures |b| == 4
  {
    var n1 := n / 256;
    var n2 := n1 / 256;
    [n % 256, n1 % 256, n2 % 256, n2 / 256]
  }

  function Value32(b: seq<Byte>): U32
    requires |b| == 4
  {
    var b0: int, b1: int, b2: int, b3: int := b[0], b[1], b[2], b[3];
    b0 + 256 * (b1 + 256 * (b2 + 256 * b3))
  }

  lemma Value32OfBytes32(n: U32)
    ensures Value32(Bytes32(n)) == n
  {
  }

  // ----- EventMessage -----

  datatype Event = Event(mMessage: seq<Byte>, mMessageLen: U32)

  predicate IsEvent(e: Event) {
    |e.mMessage| == MAX_BUFFER_SIZE
  }

  function Zeros(n: nat): (z: seq<Byte>)
    ensures |z| == n && forall i :: 0 <= i < n ==> z[i] == 0
  {
    seq(n, i => 0)
  }

  /** The event that setMessage stores for a payload. */
  function EventOf(msg: seq<Byte>): Event
    requires |msg| <= MAX_BUFFER_SIZE
  {
    Event(msg + Zeros(MAX_BUFFER_SIZE - |msg|), |msg|)
  }

  /** The memory of an event, as packMessage copies it into a node. */
  function Memory(e: Event): (b: seq<Byte>)
    requires IsEvent(e)
    ensures |b| == EVENT_SIZE
  {
    e.mMessage + Bytes32(e.mMessageLen)
  }

  /** What unpackMessage reads from the bytes of a node. */
  function EventAt(b: seq<Byte>): Event
    requires |b| >= EVENT_SIZE
  {
    Event(b[..MAX_BUFFER_SIZE], Value32(b[MAX_BUFFER_SIZE..EVENT_SIZE]))
  }

  /** The node that packMessage makes. */
  function Packed(e: Event, key: U64): Item
    requires IsEvent(e)
  {
    Item(Memory(e) + [0], EVENT_SIZE, key)
  }

  /** A node that unpackMessage may read: exactly one event long. */
  predicate IsPacked(x: Item) {
    WellFormed(x) && x.length == EVENT_SIZE && x.data != []
  }

  /** The event a node carries. */
  function Carried(x: Item): (e: Event)
    requires IsPacked(x)
    ensures IsEvent(e)
  {
    EventAt(x.data)
  }

  lemma UnpackPacked(e: Event, key: U64)
    requires IsEvent(e)
    ensures IsPacked(Packed(e, key)) && Carried(Packed(e, key)) == e
  {
    Value32OfBytes32(e.mMessageLen);
    var b := Packed(e, key).data;
    assert b[..MAX_BUFFER_SIZE] == e.mMessage;
    assert b[MAX_BUFFER_SIZE..EVENT_SIZE] == Bytes32(e.mMessageLen);
  }

  /** Copying a node again and again, each copy under the next key. */
  function CopiedThrough(x: Item, keys: seq<U64>): Item
    requires WellFormed(x)
    decreases |keys|
  {
    if keys == [] then x else CopiedThrough(CopyOf(x, keys[0]), keys[1..])
  }

  lemma {:induction false} CopiesCarryTheSame(x: Item, keys: seq<U64>)
    requires IsPacked(x)
    ensures var c := CopiedThrough(x, keys); IsPacked(c) && Carried(c) == Carried(x)
    decreases |keys|
  {
    if keys != [] {
      CopiesCarryTheSame(CopyOf(x, keys[0]), keys[1..]);
    }
  }

  /** A payload comes back, zero padded and with its length, from packing and any number of node copies. */
  lemma PayloadSurvives(msg: seq<Byte>, key: U64, keys: seq<U64>)
    requires |msg| <= MAX_BUFFER_SIZE
    ensures var c := CopiedThrough(Packed(EventOf(msg), key), keys);
            && IsPacked(c)
            && Carried(c).mMessageLen == |msg|
            && Carried(c).mMessage == msg + Zeros(MAX_BUFFER_SIZE - |msg|)
  {
    UnpackPacked(EventOf(msg), key);
    CopiesCarryTheSame(Packed(EventOf(msg), key), keys);
  }

  // ----- C strings and the log message -----

  /** `std::string(p)`: the bytes before the first NUL. */
  function CString(b: seq<Byte>): (t: Text)
    ensures t <= b && 0 !in t
    ensures |t| < |b| ==> b[|t|] == 0
  {
    if b == [] || b[0] == 0 then [] else [b[0]] + CString(b[1..])
  }

  lemma {:induction false} CStringPrefix(t: Text, rest: seq<Byte>)
    requires 0 !in t
    ensures CString(t + [0] + rest) == t
  {
    var b := t + [0] + rest;
    if t != [] {
      assert b[1..] == t[1..] + [0] + rest;
      CStringPrefix(t[1..], rest);
    }
  }

  /** `strcpy` of a text into a buffer whose bytes were `junk`. */
  function StrCpy(junk: seq<Byte>, text: seq<Byte>): (b: seq<Byte>)
    requires |CString(text)| < |junk|
    ensures |b| == |junk|
  {
    CString(text) + [0] + junk[|CString(text)| + 1..]
  }

  /** The memory of the LoggerMessage that write builds; `junk` is what its buffer held. */
  function LoggerMemory(text: seq<Byte>, junk: seq<Byte>): (b: seq<Byte>)
    requires |junk| == STRING_SIZE && |CString(text)| < STRING_SIZE
    ensures |b| == LOGGER_MESSAGE_SIZE
  {
    StrCpy(junk, text) + Bytes32(|text| % TWO_32)
  }

  /** `std::string(message->mLoggerString)` for the LoggerMessage at the start of an event. */
  function LogText(e: Event): Text {
    CString(e.mMessage)
  }

  /** `message->mMessageLen` */
  function LogLength(e: Event): U32
    requires IsEvent(e)
  {
    Value32(e.mMessage[STRING_SIZE..LOGGER_MESSAGE_SIZE])
  }

  /** The LoggerMessage that the logger copies from `e` for the pending queue. */
  function PendingMemory(e: Event): (b: seq<Byte>)
    requires IsEvent(e)
    ensures |b| == LOGGER_MESSAGE_SIZE
  {
    var mMessageLen := LogLength(e);
    e.mMessage[..STRING_SIZE] + Bytes32(mMessageLen)
  }

  /** The three structs fit in an event. */
  lemma MessagesFit()
    ensures HTTP_MESSAGE_SIZE <= LOGGER_MESSAGE_SIZE <= DB_MESSAGE_SIZE <= MAX_BUFFER_SIZE
  {
  }

  /** A text written to the live queue is read back up to its first NUL. */
  lemma LogTextSurvives(text: seq<Byte>, junk: seq<Byte>)
    requires |junk| == STRING_SIZE && |CString(text)| < STRING_SIZE
    ensures LogText(EventOf(LoggerMemory(text, junk))) == CString(text)
  {
    var t, m := CString(text), EventOf(LoggerMemory(text, junk)).mMessage;
    assert m == t + [0] + m[|t| + 1..];
    CStringPrefix(t, m[|t| + 1..]);
  }

  /** The length that write stores beside a text is read back, in full for a text with a NUL in it. */
  lemma LogLengthSurvives(text: seq<Byte>, junk: seq<Byte>)
    requires |junk| == STRING_SIZE && |CString(text)| < STRING_SIZE
    ensures var e := EventOf(LoggerMemory(text, junk));
            && LogLength(e) == |text| % TWO_32
            && LogLength(EventOf(PendingMemory(e))) == |text| % TWO_32
  {
    var b := LoggerMemory(text, junk);
    var n: U32 := |text| % TWO_32;
    assert EventOf(b).mMessage[STRING_SIZE..LOGGER_MESSAGE_SIZE] == Bytes32(n);
    PendingCopySurvives(text, junk);
    hide Bytes32, Value32, StrCpy, CString;
    Value32OfBytes32(n);
  }

  lemma Bytes32OfValue32(b: seq<Byte>)
    requires |b| == 4
    ensures Bytes32(Value32(b)) == b
  {
    var n: int := Value32(b);
    var b1: int, b2: int, b3: int := b[1], b[2], b[3];
    assert n / 256 == b1 + 256 * (b2 + 256 * b3);
    assert n / 256 / 256 == b2 + 256 * b3;
  }

  /** The copy into the pending queue is the same message, byte for byte. */
  lemma PendingCopySurvives(text: seq<Byte>, junk: seq<Byte>)
    requires |junk| == STRING_SIZE && |CString(text)| < STRING_SIZE
    ensures var e := EventOf(LoggerMemory(text, junk));
            PendingMemory(e) == LoggerMemory(text, junk) && LogText(EventOf(PendingMemory(e))) == CString(text)
  {
    var b := LoggerMemory(text, junk);
    var e := EventOf(b);
    assert e.mMessage[..LOGGER_MESSAGE_SIZE] == b;
    Bytes32OfValue32(b[STRING_SIZE..]);
    assert e.mMessage[STRING_SIZE..LOGGER_MESSAGE_SIZE] == b[STRING_SIZE..];
    assert e.mMessage[..STRING_SIZE] == b[..STRING_SIZE];
    LogTextSurvives(text, junk);
  }

  /** An event whose text fits a LoggerMessage keeps its text through the copy into the pending queue. */
  lemma PendingKeepsText(e: Event)
    requires IsEvent(e) && |LogText(e)| < STRING_SIZE
    ensures LogText(EventOf(PendingMemory(e))) == LogText(e)
  {
    var t, m := LogText(e), EventOf(PendingMemory(e)).mMessage;
    assert m[..STRING_SIZE] == e.mMessage[..STRING_SIZE];
    assert m[|t|] == m[..STRING_SIZE][|t|] == 0;
    assert m[..|t|] == m[..STRING_SIZE][..|t|] == t;
    assert m == t + [0] + m[|t| + 1..];
    CStringPrefix(t, m[|t| + 1..]);
  }

  // ----- the database message -----

  /** eQUERY_TYPE::DATA_MANIPULATION */
  const DATA_MANIPULATION: U32 := 2

  /** The memory of the DBMessage that a session builds for a DML statement; the buffers held junk. */
  function DbMemory(table: seq<Byte>, query: seq<Byte>, tableJunk: seq<Byte>, queryJunk: seq<Byte>): (b: seq<Byte>)
    requires |tableJunk| == DB_TABLE_BUFFER_SIZE && |CString(table)| < DB_TABLE_BUFFER_SIZE
    requires |queryJunk| == STRING_SIZE && |CString(query)| < STRING_SIZE
    ensures |b| == DB_MESSAGE_SIZE
  {
    StrCpy(tableJunk, table) + StrCpy(queryJunk, query) + Bytes32(DATA_MANIPULATION)
  }

  /** `std::string(message->mTableName)` for the DBMessage at the start of an event. */
  function TableName(e: Event): Text {
    CString(e.mMessage)
  }

  /** `std::string(message->mQueryString)` */
  function QueryText(e: Event): Text
    requires IsEvent(e)
  {
    CString(e.mMessage[DB_TABLE_BUFFER_SIZE..])
  }

  function QueryType(e: Event): U32
    requires IsEvent(e)
  {
    Value32(e.mMessage[DB_TABLE_BUFFER_SIZE + STRING_SIZE..DB_MESSAGE_SIZE])
  }

  lemma StrCpyIsRead(junk: seq<Byte>, text: seq<Byte>, rest: seq<Byte>)
    requires |CString(text)| < |junk|
    ensures CString(StrCpy(junk, text) + rest) == CString(text)
  {
    hide CString;
    var t := CString(text);
    assert StrCpy(junk, text) + rest == t + [0] + (junk[|t| + 1..] + rest);
    CStringPrefix(t, junk[|t| + 1..] + rest);
  }

  /** The parts of three in a row, and what follows them. */
  lemma PartsOf(a: seq<Byte>, b: seq<Byte>, c: seq<Byte>, z: seq<Byte>)
    ensures var m := a + b + c + z;
            m == a + (b + c + z) && m[|a|..] == b + (c + z) && m[|a| + |b|..|a| + |b| + |c|] == c
  {
  }

  /** A DML statement is read back up to its first NUL, with its table and its type. */
  lemma QuerySurvives(table: seq<Byte>, query: seq<Byte>, tableJunk: seq<Byte>, queryJunk: seq<Byte>)
    requires |tableJunk| == DB_TABLE_BUFFER_SIZE && |CString(table)| < DB_TABLE_BUFFER_SIZE
    requires |queryJunk| == STRING_SIZE && |CString(query)| < STRING_SIZE
    ensures var e := EventOf(DbMemory(table, query, tableJunk, queryJunk));
            && TableName(e) == CString(table) && QueryText(e) == CString(query) && QueryType(e) == DATA_MANIPULATION
  {
    var a, b, c := StrCpy(tableJunk, table), StrCpy(queryJunk, query), Bytes32(DATA_MANIPULATION);
    var z := Zeros(MAX_BUFFER_SIZE - DB_MESSAGE_SIZE);
    var e := EventOf(DbMemory(table, query, tableJunk, queryJunk));
    assert e.mMessage == a + b + c + z;
    hide StrCpy, CString, Zeros, EventOf, DbMemory, Bytes32, Value32;
    PartsOf(a, b, c, z);
    StrCpyIsRead(tableJunk, table, b + c + z);
    StrCpyIsRead(queryJunk, query, c + z);
    Value32OfBytes32(DATA_MANIPULATION);
  }
}
