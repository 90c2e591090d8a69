/** Events as bytes: the wire format of psycal/message.cc and the files of psycal/dump.cc. */
module PsycalFiles {
  import opened Arithmetic
  import opened Basics
  import opened Codec

  // The size of a std::string is a size_t.
  type Text = s: seq<u8> | |s| < 0x1_0000_0000_0000_0000 witness []

  datatype Event = Event(timestamp: u64, message: Text)

  // ---------- the format ----------

  function Record(e: Event): seq<u8> {
    LittleEndian(e.timestamp, 8) + LittleEndian(|e.message|, 8) + e.message
  }

  function Records(es: seq<Event>): seq<u8> {
    if es == [] then [] else Record(es[0]) + Records(es[1..])
  }

  // The record at the front of some bytes, and the bytes behind it.
  function ParseRecord(bytes: seq<u8>): (r: Option<(Event, seq<u8>)>)
    ensures r.Some? ==> |r.value.1| < |bytes|
  {
    if |bytes| < 16 then None
    else
      var timestamp, size := FromLittleEndian(bytes[..8]), FromLittleEndian(bytes[8..16]);
      EncodeDecode(bytes[..8]);
      EncodeDecode(bytes[8..16]);
      EightBytes();
      if 16 + size <= |bytes| then Some((Event(timestamp, bytes[16..16 + size]), bytes[16 + size..])) else None
  }

  // What a file holds; None when it is not a sequence of whole records.
  function ParseFile(bytes: seq<u8>): Option<seq<Event>>
    decreases |bytes|
  {
    if bytes == [] then Some([])
    else
      match ParseRecord(bytes)
      case None => None
      case Some((e, rest)) =>
        match ParseFile(rest)
        case None => None
        case Some(es) => Some([e] + es)
  }

  // The layout, byte by byte: the timestamp, the size of the message, low-order bytes first, and
  // the message.
  lemma RecordLayout(e: Event, i: nat)
    ensures |Record(e)| == 16 + |e.message| && Record(e)[16..] == e.message
    ensures i < 8 ==> Record(e)[i] == e.timestamp / Power(256, i) % 256
    ensures i < 8 ==> Record(e)[8 + i] == |e.message| / Power(256, i) % 256
  {
    hide LittleEndian;
    if i < 8 {
      LittleEndianAt(e.timestamp, 8, i);
      LittleEndianAt(|e.message|, 8, i);
    }
  }

  lemma RecordParses(e: Event, tail: seq<u8>)
    ensures ParseRecord(Record(e) + tail) == Some((e, tail))
  {
    hide LittleEndian, FromLittleEndian;
    var bytes := Record(e) + tail;
    assert bytes[..8] == LittleEndian(e.timestamp, 8);
    assert bytes[8..16] == LittleEndian(|e.message|, 8);
    EightBytes();
    DecodeEncode(e.timestamp, 8);
    DecodeEncode(|e.message|, 8);
    assert bytes[16..16 + |e.message|] == e.message;
    assert bytes[16 + |e.message|..] == tail;
  }

  lemma ParsedRecord(bytes: seq<u8>)
    requires ParseRecord(bytes).Some?
    ensures bytes == Record(ParseRecord(bytes).value.0) + ParseRecord(bytes).value.1
  {
    hide LittleEndian, FromLittleEndian;
    EncodeDecode(bytes[..8]);
    EncodeDecode(bytes[8..16]);
    assert bytes == bytes[..8] + bytes[8..16] + bytes[16..];
  }

  // Whole files and lists of events are in bijection.
  lemma {:induction false} RecordsParse(es: seq<Event>)
    ensures ParseFile(Records(es)) == Some(es)
  {
    hide Record, ParseRecord;
    if es != [] {
      RecordNonempty(es[0]);
      RecordParses(es[0], Records(es[1..]));
      RecordsParse(es[1..]);
      assert es == [es[0]] + es[1..];
    }
  }

  lemma RecordNonempty(e: Event)
    ensures |Record(e)| == 16 + |e.message|
  {}

  lemma {:induction false} ParsedRecords(bytes: seq<u8>)
    requires ParseFile(bytes).Some?
    ensures Records(ParseFile(bytes).value) == bytes
    decreases |bytes|
  {
    hide Record, ParseRecord;
    if bytes != [] {
      ParsedRecord(bytes);
      var (e, rest) := ParseRecord(bytes).value;
      ParsedRecords(rest);
    }
  }

  lemma {:induction false} RecordsConcat(a: seq<Event>, b: seq<Event>)
    ensures Records(a + b) == Records(a) + Records(b)
  {
    hide Record;
    if a == [] {
      assert a + b == b;
    } else {
      assert (a + b)[1..] == a[1..] + b;
      RecordsConcat(a[1..], b);
    }
  }

  lemma RecordsLast(es: seq<Event>, e: Event)
    ensures Records(es + [e]) == Records(es) + Record(e)
  {
    RecordsConcat(es, [e]);
    hide Record;
    assert [e][1..] == [];
    assert Records([e]) == Record(e) + Records([]);
  }

  // Appending records to a whole file appends their events.
  lemma AppendParses(bytes: seq<u8>, es: seq<Event>)
    requires ParseFile(bytes).Some?
    ensures ParseFile(bytes + Records(es)) == Some(ParseFile(bytes).value + es)
  {
    ParsedRecords(bytes);
    RecordsConcat(ParseFile(bytes).value, es);
    RecordsParse(ParseFile(bytes).value + es);
  }

  // ---------- C strings ----------

  // `std::string(buffer)` ends at the first NUL. The byte behind the buffer is taken to be NUL.
  function CString(s: Text): (t: Text)
    ensures |t| <= |s| && t == s[..|t|]
    ensures 0 !in t && (t == s <==> 0 !in s)
  {
    if s == [] || s[0] == 0 then [] else [s[0]] + CString(s[1..])
  }

  function CutAtNul(e: Event): Event {
    e.(message := CString(e.message))
  }

  function CutAll(es: seq<Event>): (r: seq<Event>)
    ensures |r| == |es|
  {
    seq(|es|, i requires 0 <= i < |es| => CutAtNul(es[i]))
  }

  predicate NulFree(e: Event) {
    0 !in e.message
  }

  // ---------- the code ----------

  method EncodeU64LE(x: u64, vec: seq<u8>) returns (r: seq<u8>)
    ensures r == vec + LittleEndian(x, 8)
  {
    r := vec;
    r := r + [x % 256];
    r := r + [x / 0x100 % 256];
    r := r + [x / 0x1_0000 % 256];
    r := r + [x / 0x100_0000 % 256];
    assert r == vec + FourBytes(x);
    r := r + [x / 0x1_0000_0000 % 256];
    r := r + [x / 0x100_0000_0000 % 256];
    r := r + [x / 0x1_0000_0000_0000 % 256];
    r := r + [x / 0x100_0000_0000_0000 % 256];
    assert r == vec + (FourBytes(x) + FourBytes(x / TWO_32)) by { HighBytes(x); }
    EightBytesAre(x);
    LowBytes(x);
  }

  lemma HighBytes(x: u64)
    ensures x / 0x100_0000_0000 == x / TWO_32 / 0x100
    ensures x / 0x1_0000_0000_0000 == x / TWO_32 / 0x1_0000
    ensures x / 0x100_0000_0000_0000 == x / TWO_32 / 0x100_0000
  {}

  method DecodeU64LE(cursor: seq<u8>) returns (x: u64)
    requires |cursor| >= 8
    ensures x == FromLittleEndian(cursor[..8])
  {
    hide BitOr, Power;
    Power2OfBytes();
    var v: nat := cursor[0];
    OrAbove(v, cursor[1], 8);
    v := BitOr(v, (cursor[1] as int) * 0x100);
    OrAbove(v, cursor[2], 16);
    v := BitOr(v, (cursor[2] as int) * 0x1_0000);
    OrAbove(v, cursor[3], 24);
    v := BitOr(v, (cursor[3] as int) * 0x100_0000);
    OrAbove(v, cursor[4], 32);
    v := BitOr(v, (cursor[4] as int) * 0x1_0000_0000);
    OrAbove(v, cursor[5], 40);
    v := BitOr(v, (cursor[5] as int) * 0x100_0000_0000);
    OrAbove(v, cursor[6], 48);
    v := BitOr(v, (cursor[6] as int) * 0x1_0000_0000_0000);
    OrAbove(v, cursor[7], 56);
    v := BitOr(v, (cursor[7] as int) * 0x100_0000_0000_0000);
    x := v;
    ghost var s := cursor[..8];
    DecodeFour(s);
    DecodeFour(s[4..]);
    assert s[4..][4..] == [];
  }

  method GetEncodedMessage(e: Event) returns (r: seq<u8>)
    ensures r == LittleEndian(|e.message|, 8) + e.message
  {
    r := EncodeU64LE(|e.message|, []);
    r := r + e.message;
  }

  method IntoBuffer(events: seq<Event>) returns (r: seq<u8>)
    ensures r == Records(events)
  {
    hide Record;
    r := [];
    for i := 0 to |events|
      invariant r == Records(events[..i])
    {
      ghost var before := r;
      r := EncodeU64LE(events[i].timestamp, r);
      var message := GetEncodedMessage(events[i]);
      r := r + message;
      RecordParts(events[i], before);
      RecordsLast(events[..i], events[i]);
      assert events[..i + 1] == events[..i] + [events[i]];
    }
    assert events[..|events|] == events;
  }

  lemma RecordParts(e: Event, before: seq<u8>)
    ensures before + LittleEndian(e.timestamp, 8) + (LittleEndian(|e.message|, 8) + e.message) == before + Record(e)
  {
    hide LittleEndian;
    ConcatAssociates(LittleEndian(e.timestamp, 8), LittleEndian(|e.message|, 8), e.message);
    ConcatAssociates(before, LittleEndian(e.timestamp, 8), LittleEndian(|e.message|, 8) + e.message);
  }

  // Decodes one event. None when the announced message leaves the buffer, which the code does
  // not check before it copies.
  method FromBuffer(buffer: seq<u8>) returns (events: Option<seq<Event>>)
    ensures events == match ParseRecord(buffer) case None => None case Some((e, _)) => Some([e])
  {
    hide LittleEndian, FromLittleEndian;
    if |buffer| < 16 {
      return None;
    }
    var timestamp := DecodeU64LE(buffer);
    var size := DecodeU64LE(buffer[8..]);
    assert buffer[8..][..8] == buffer[8..16];
    if 16 + size > |buffer| {
      return None;
    }
    return Some([Event(timestamp, buffer[16..16 + size])]);
  }

  // On the wire the first event arrives, whatever pads the packet.
  lemma FirstEventArrives(es: seq<Event>, padding: seq<u8>)
    requires es != []
    ensures ParseRecord(Records(es) + padding).Some?
    ensures ParseRecord(Records(es) + padding).value.0 == es[0]
  {
    assert Records(es) + padding == Record(es[0]) + (Records(es[1..]) + padding);
    RecordParses(es[0], Records(es[1..]) + padding);
  }

  // ---------- reading a stream ----------

  // What `istream::read` gets of the n bytes that it is asked for, and what it leaves.
  function Got(stream: seq<u8>, n: nat): seq<u8> {
    if n <= |stream| then stream[..n] else stream
  }

  function Left(stream: seq<u8>, n: nat): seq<u8> {
    if n <= |stream| then stream[n..] else []
  }

  // A zero word into whose low-order bytes up to eight bytes were read.
  function WordRead(got: seq<u8>): u64
    requires |got| <= 8
  {
    EncodeDecode(got);
    PowerGrows(256, |got|, 8);
    EightBytes();
    FromLittleEndian(got)
  }

  // A fresh buffer of `size` bytes after a read: past what was read its content is arbitrary.
  function Buffer(got: seq<u8>, size: u64, heap: nat -> u8): Text {
    seq(size, k requires 0 <= k => if k < |got| then got[k] else heap(k))
  }

  // One turn of the loop: the event made of the front of the stream, and what is left.
  function ReadOne(stream: seq<u8>, heap: nat -> u8): (Event, seq<u8>) {
    var s1 := Left(stream, 8);
    var s2 := Left(s1, 8);
    var size := WordRead(Got(s1, 8));
    (Event(WordRead(Got(stream, 8)), CString(Buffer(Got(s2, size), size, heap))), Left(s2, size))
  }

  function EventsRead(file: seq<u8>, heap: nat -> u8): seq<Event>
    decreases |file|
  {
    if file == [] then []
    else
      var (e, rest) := ReadOne(file, heap);
      [e] + EventsRead(rest, heap)
  }

  method Read(stream: seq<u8>, n: nat) returns (got: seq<u8>, rest: seq<u8>)
    ensures got == Got(stream, n) && rest == Left(stream, n)
  {
    if n <= |stream| { return stream[..n], stream[n..]; } else { return stream, []; }
  }

  // Reads length-prefixed records until the end of the stream; each message passes through a
  // C string.
  method ReadEventsFrom(file: seq<u8>, heap: nat -> u8) returns (ret: seq<Event>)
    ensures ret == EventsRead(file, heap)
  {
    hide WordRead, Buffer, Got, Left;
    ret := [];
    var stream := file;
    while stream != []
      invariant ret + EventsRead(stream, heap) == EventsRead(file, heap)
      decreases |stream|
    {
      ReadShortens(stream, heap);
      ghost var before := stream;
      var got;
      got, stream := Read(stream, 8);
      GotAtMost(before, 8);
      var timestamp := WordRead(got);
      GotAtMost(stream, 8);
      got, stream := Read(stream, 8);
      var size := WordRead(got);
      got, stream := Read(stream, size);
      var e := Event(timestamp, CString(Buffer(got, size, heap)));
      assert ReadOne(before, heap) == (e, stream);
      ConcatAssociates(ret, [e], EventsRead(stream, heap));
      ret := ret + [e];
    }
    ConcatEmpty(ret);
  }

  lemma GotAtMost(stream: seq<u8>, n: nat)
    ensures |Got(stream, n)| <= n
  {}

  lemma ReadShortens(stream: seq<u8>, heap: nat -> u8)
    requires stream != []
    ensures |ReadOne(stream, heap).1| < |stream|
  {}

  // A whole record is read as it is, up to a NUL in its message; of anything else one event is
  // made, and nothing is left.
  lemma ReadOneIsRecord(stream: seq<u8>, heap: nat -> u8)
    ensures match ParseRecord(stream)
            case Some((e, rest)) => ReadOne(stream, heap) == (CutAtNul(e), rest)
            case None => ReadOne(stream, heap).1 == []
  {
    hide LittleEndian, FromLittleEndian, CString;
    if |stream| >= 16 {
      assert stream[8..][..8] == stream[8..16] && stream[8..][8..] == stream[16..];
      var size := WordRead(stream[8..16]);
      if 16 + size <= |stream| {
        assert Buffer(stream[16..][..size], size, heap) == stream[16..16 + size];
        assert stream[16..][size..] == stream[16 + size..];
      }
    }
  }

  // Whatever follows whole records in a file, they are read first, and only a rest that is no
  // record makes one more event.
  lemma {:induction false} WholeRecordsAreRead(es: seq<Event>, rest: seq<u8>, heap: nat -> u8)
    requires ParseRecord(rest).None?
    ensures EventsRead(Records(es) + rest, heap)
         == CutAll(es) + (if rest == [] then [] else [ReadOne(rest, heap).0])
  {
    hide Record, ParseRecord, ReadOne, CutAtNul;
    if es == [] {
      assert Records(es) + rest == rest;
      ReadOneIsRecord(rest, heap);
    } else {
      var file, more := Records(es) + rest, Records(es[1..]) + rest;
      ConcatAssociates(Record(es[0]), Records(es[1..]), rest);
      RecordParses(es[0], more);
      ReadOneIsRecord(file, heap);
      RecordNonempty(es[0]);
      WholeRecordsAreRead(es[1..], rest, heap);
      assert CutAll(es) == [CutAtNul(es[0])] + CutAll(es[1..]);
    }
  }

  // A file cut off within a record: that record is not whole, and keeps its timestamp when the
  // cut lies behind it.
  lemma CutOffRecord(e: Event, part: seq<u8>, heap: nat -> u8)
    requires part < Record(e)
    ensures ParseRecord(part).None?
    ensures |part| >= 8 ==> ReadOne(part, heap).0.timestamp == e.timestamp
  {
    hide LittleEndian, FromLittleEndian, CString, Buffer;
    var bytes := Record(e);
    assert bytes[..8] == LittleEndian(e.timestamp, 8);
    assert bytes[8..16] == LittleEndian(|e.message|, 8);
    EightBytes();
    DecodeEncode(e.timestamp, 8);
    DecodeEncode(|e.message|, 8);
    if |part| >= 8 {
      assert part[..8] == bytes[..8];
    }
    if |part| >= 16 {
      assert part[8..16] == bytes[8..16];
    }
  }

  // What is there of the timestamp is its low-order bytes; without it all, there is no message.
  lemma CutOffTimestamp(e: Event, part: seq<u8>, heap: nat -> u8)
    requires part < Record(e) && |part| < 8
    ensures ReadOne(part, heap).0 == Event(e.timestamp % Power(256, |part|), [])
  {
    hide LittleEndian, FromLittleEndian;
    assert part == LittleEndian(e.timestamp, 8)[..|part|];
    PrefixValue(e.timestamp, 8, |part|);
    EmptyIsZero();
  }

  lemma EmptyIsZero()
    ensures WordRead([]) == 0
  {}

  lemma {:induction false} CStringStops(s: Text)
    ensures |CString(s)| < |s| ==> s[|CString(s)|] == 0
  {
    if s != [] && s[0] != 0 {
      CStringStops(s[1..]);
    }
  }

  // A message without NULs that is cut off begins with what is there of it, and whatever stands
  // in the buffer may follow, but no more than its announced size.
  lemma CutOffMessage(e: Event, part: seq<u8>, heap: nat -> u8)
    requires part < Record(e) && |part| >= 16 && NulFree(e)
    ensures part[16..] <= ReadOne(part, heap).0.message
    ensures |ReadOne(part, heap).0.message| <= |e.message|
  {
    hide LittleEndian, FromLittleEndian, CString;
    var bytes := Record(e);
    assert bytes[8..16] == LittleEndian(|e.message|, 8) && part[8..16] == bytes[8..16];
    EightBytes();
    DecodeEncode(|e.message|, 8);
    var s1 := Left(part, 8);
    assert s1[..8] == part[8..16] && s1[8..] == part[16..];
    var there := part[16..];
    var buffer := Buffer(there, |e.message|, heap);
    assert there == e.message[..|there|] && there == buffer[..|there|];
    CStringStops(buffer);
    assert ReadOne(part, heap).0.message == CString(buffer);
    assert forall k :: 0 <= k < |there| ==> buffer[k] == e.message[k];
  }

  // Reading back what was written gives the same events exactly when no message holds a NUL:
  // a message with a NUL comes back cut.
  lemma ReadBack(es: seq<Event>, heap: nat -> u8)
    ensures ParseFile(Records(es)) == Some(es)
    ensures EventsRead(Records(es), heap) == CutAll(es)
    ensures CutAll(es) == es <==> forall i :: 0 <= i < |es| ==> NulFree(es[i])
  {
    hide Records, EventsRead, CutAll, ParseFile;
    RecordsParse(es);
    EmptyIsNoRecord();
    WholeRecordsAreRead(es, [], heap);
    ConcatEmpty(Records(es));
    ConcatEmpty(CutAll(es));
    CutIffNul(es);
  }

  lemma EmptyIsNoRecord()
    ensures ParseRecord([]).None?
  {}

  lemma CutIffNul(es: seq<Event>)
    ensures CutAll(es) == es <==> forall i :: 0 <= i < |es| ==> NulFree(es[i])
  {
    forall i | 0 <= i < |es| ensures CutAll(es)[i] == es[i] <==> NulFree(es[i]) {}
    if CutAll(es) != es {
      var i :| 0 <= i < |es| && CutAll(es)[i] != es[i];
    }
  }

  lemma NulCutsMessage()
    ensures CutAll([Event(1, [104, 105, 0, 120])]) == [Event(1, [104, 105])]
  {
    assert CString([0, 120]) == [];
    assert [105, 0, 120][1..] == [0, 120];
    assert CString([105, 0, 120]) == [105];
    assert [104, 105, 0, 120][1..] == [105, 0, 120];
    assert CString([104, 105, 0, 120]) == [104, 105];
  }
}
