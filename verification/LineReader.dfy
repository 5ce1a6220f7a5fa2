/** The buffered line reader of src/atpserver/atpserver.c: however `read` cuts the byte stream into chunks, the
    lines are the same. */
module LineReader {
  const BUFFER_SIZE: nat := 1000

  /** What one call of `read` brings: some bytes, the end of the stream, an interruption or an error. */
  datatype Event = Data(bytes: string) | Eof | Interrupted | Failed

  /** The stream without its chunks. */
  datatype Item = Byte(c: char) | End | Fail

  predicate ValidEvents(es: seq<Event>) {
    forall i :: 0 <= i < |es| && es[i].Data? ==> 0 < |es[i].bytes| <= BUFFER_SIZE
  }

  function Bytes(s: string): (r: seq<Item>)
    ensures |r| == |s| && forall i :: 0 <= i < |s| ==> r[i] == Byte(s[i])
  {
    seq(|s|, i requires 0 <= i < |s| => Byte(s[i]))
  }

  function ItemsOf(e: Event): seq<Item> {
    match e
    case Data(bytes) => Bytes(bytes)
    case Eof => [End]
    case Interrupted => []
    case Failed => [Fail]
  }

  function Flatten(es: seq<Event>): seq<Item> {
    if es == [] then [] else ItemsOf(es[0]) + Flatten(es[1..])
  }

  // ---------------------------------------------------------------- a line

  datatype Line = Line(text: string, code: int, rest: seq<Item>)

  /** The rest of a line of which `n - 1` bytes have been read.  The newline is taken but not stored; past the last
      item the stream stays at its end. */
  function LineFrom(items: seq<Item>, n: nat, maxLen: int): Line
    decreases maxLen - n
  {
    if n >= maxLen then Line("", n, items)
    else if items == [] then Line("", n - 1, [])
    else
      match items[0]
      case End => Line("", n - 1, items[1..])
      case Fail => Line("", -1, items[1..])
      case Byte(c) =>
        if c == '\n' then Line("", n, items[1..])
        else var r := LineFrom(items[1..], n + 1, maxLen); r.(text := [c] + r.text)
  }

  function ReadOne(items: seq<Item>, maxLen: int): Line {
    LineFrom(items, 1, maxLen)
  }

  /** How a line ended. */
  datatype Ending = Newline | AtEnd | Full | Error

  function EndingItems(e: Ending, exhausted: bool): seq<Item> {
    match e
    case Newline => [Byte('\n')]
    case AtEnd => if exhausted then [] else [End]
    case Full => []
    case Error => [Fail]
  }

  /** Nothing is lost, duplicated or reordered: a line is the next bytes of the stream up to a newline, the end, an
      error or the limit; the code counts the newline but not the end; and what follows is left unread. */
  lemma {:induction false} LineSplits(items: seq<Item>, n: nat, maxLen: int) returns (e: Ending, exhausted: bool)
    requires n >= 1
    ensures var l := LineFrom(items, n, maxLen);
            && items == Bytes(l.text) + EndingItems(e, exhausted) + l.rest && '\n' !in l.text
            && (exhausted ==> e == AtEnd && l.rest == [])
            && l.code == (match e case Newline => n + |l.text| case AtEnd => n - 1 + |l.text|
                                  case Full => n + |l.text| case Error => -1)
            && (e == Full <==> n + |l.text| >= maxLen)
    decreases maxLen - n
  {
    hide Bytes;
    NoBytes(items);
    exhausted := false;
    if n >= maxLen {
      e := Full;
    } else if items == [] {
      e, exhausted := AtEnd, true;
    } else {
      NoBytes(items[1..]);
      assert items == [items[0]] + items[1..];
      match items[0] {
        case End => e := AtEnd;
        case Fail => e := Error;
        case Byte(c) =>
          if c == '\n' {
            e := Newline;
          } else {
            e, exhausted := LineSplits(items[1..], n + 1, maxLen);
            hide EndingItems;
            var r := LineFrom(items[1..], n + 1, maxLen);
            OneMoreByte(c, r.text, EndingItems(e, exhausted), r.rest);
          }
      }
    }
  }

  lemma NoBytes(items: seq<Item>)
    ensures Bytes("") == [] && [] + [] + items == items
    ensures [] + [End] + items == [End] + items && [] + [Fail] + items == [Fail] + items
    ensures [] + [Byte('\n')] + items == [Byte('\n')] + items
  {
  }

  lemma OneMoreByte(c: char, text: string, ending: seq<Item>, rest: seq<Item>)
    ensures [Byte(c)] + (Bytes(text) + ending + rest) == Bytes([c] + text) + ending + rest
    ensures '\n' in [c] + text <==> c == '\n' || '\n' in text
  {
    assert Bytes([c] + text) == [Byte(c)] + Bytes(text);
    hide Bytes;
    assert [Byte(c)] + (Bytes(text) + ending + rest) == [Byte(c)] + Bytes(text) + ending + rest;
  }

  /** The lines of successive calls, and what they leave unread. */
  function ReadMany(items: seq<Item>, maxLens: seq<int>): (seq<(string, int)>, seq<Item>)
    decreases |maxLens|
  {
    if maxLens == [] then ([], items)
    else
      var l := ReadOne(items, maxLens[0]);
      var (lines, rest) := ReadMany(l.rest, maxLens[1..]);
      ([(l.text, l.code)] + lines, rest)
  }

  /** How a line read by one call with the limit `maxLen` ended, and that its code says so. */
  predicate EndedBy(line: (string, int), maxLen: int, e: Ending) {
    && '\n' !in line.0 && (e == Full <==> 1 + |line.0| >= maxLen)
    && line.1 == match e case Newline => 1 + |line.0| case AtEnd => |line.0| case Full => 1 + |line.0| case Error => -1
  }

  /** Lines with what ended each of them; at the end of the stream there is nothing more to take. */
  function Account(lines: seq<(string, int)>, ends: seq<(Ending, bool)>): seq<Item>
    requires |lines| == |ends|
  {
    if lines == [] then []
    else Bytes(lines[0].0) + EndingItems(ends[0].0, ends[0].1) + Account(lines[1..], ends[1..])
  }

  /** Over any number of calls the stream is the lines, each with what ended it, and then what is left unread. */
  lemma {:induction false} ManySplit(items: seq<Item>, maxLens: seq<int>) returns (ends: seq<(Ending, bool)>)
    ensures var (lines, rest) := ReadMany(items, maxLens);
            && |lines| == |ends| == |maxLens| && items == Account(lines, ends) + rest
            && (forall i :: 0 <= i < |ends| ==> EndedBy(lines[i], maxLens[i], ends[i].0))
            && forall i :: 0 <= i < |ends| && ends[i].1 ==> ends[i].0 == AtEnd && rest == []
    decreases |maxLens|
  {
    if maxLens == [] {
      ends := [];
      assert [] + items == items;
    } else {
      var e, exhausted := LineSplits(items, 1, maxLens[0]);
      var l := ReadOne(items, maxLens[0]);
      var later := ManySplit(l.rest, maxLens[1..]);
      ends := [(e, exhausted)] + later;
      var (lines, rest) := ReadMany(l.rest, maxLens[1..]);
      if exhausted { NothingLeft(maxLens[1..]); }
      hide LineFrom, ReadOne, Bytes, EndingItems;
      FirstAccounted((l.text, l.code), (e, exhausted), lines, later, rest);
      assert ReadMany(items, maxLens) == ([(l.text, l.code)] + lines, rest);
    }
  }

  lemma {:induction false} NothingLeft(maxLens: seq<int>)
    ensures ReadMany([], maxLens).1 == []
    decreases |maxLens|
  {
    if maxLens == [] {
    } else {
      NothingLeft(maxLens[1..]);
    }
  }

  lemma FirstAccounted(line: (string, int), end: (Ending, bool), lines: seq<(string, int)>, ends: seq<(Ending, bool)>,
                       rest: seq<Item>)
    requires |lines| == |ends|
    ensures Account([line] + lines, [end] + ends) + rest
         == Bytes(line.0) + EndingItems(end.0, end.1) + (Account(lines, ends) + rest)
  {
    hide Bytes, EndingItems;
    assert ([line] + lines)[1..] == lines && ([end] + ends)[1..] == ends;
    var first := Bytes(line.0) + EndingItems(end.0, end.1);
    assert first + Account(lines, ends) + rest == first + (Account(lines, ends) + rest);
  }

  /** The events with adjoining chunks joined and interruptions left out: the bytes between the ends and errors. */
  function Joined(es: seq<Event>): seq<Event> {
    if es == [] then []
    else
      var rest := Joined(es[1..]);
      match es[0]
      case Interrupted => rest
      case Data(bytes) =>
        if rest != [] && rest[0].Data? then [Data(bytes + rest[0].bytes)] + rest[1..] else [Data(bytes)] + rest
      case e => [e] + rest
  }

  lemma {:induction false} JoinedSame(es: seq<Event>)
    ensures Flatten(Joined(es)) == Flatten(es)
  {
    if es == [] {
    } else {
      JoinedSame(es[1..]);
      var e, rest := es[0], Joined(es[1..]);
      hide Bytes;
      match e {
        case Interrupted =>
        case Data(bytes) =>
          if rest != [] && rest[0].Data? {
            BytesJoined(bytes, rest[0].bytes);
            NextFlat(Data(bytes + rest[0].bytes), rest[1..]);
            assert Bytes(bytes) + Bytes(rest[0].bytes) + Flatten(rest[1..])
                == Bytes(bytes) + (Bytes(rest[0].bytes) + Flatten(rest[1..]));
          } else {
            NextFlat(e, rest);
          }
        case _ => NextFlat(e, rest);
      }
    }
  }

  lemma BytesJoined(a: string, b: string)
    ensures Bytes(a + b) == Bytes(a) + Bytes(b)
  {
  }

  lemma NextFlat(e: Event, rest: seq<Event>)
    ensures Flatten([e] + rest) == ItemsOf(e) + Flatten(rest)
  {
    hide ItemsOf;
    assert ([e] + rest)[1..] == rest;
  }

  /** However the same bytes between the same ends and errors are cut into chunks, and wherever the reader is
      interrupted, all calls give the same lines. */
  lemma ChunksDoNotMatter(a: seq<Event>, b: seq<Event>, maxLens: seq<int>)
    requires Joined(a) == Joined(b)
    ensures ReadMany(Flatten(a), maxLens) == ReadMany(Flatten(b), maxLens)
  {
    hide Flatten, ReadMany, Joined;
    JoinedSame(a);
    JoinedSame(b);
  }

  // ---------------------------------------------------------------- the reader

  lemma NothingBefore(items: seq<Item>)
    ensures [] + items == items
  {
  }

  lemma FirstAndRest(x: Item, rest: seq<Item>)
    ensures var items := [x] + rest; items != [] && items[0] == x && items[1..] == rest
  {
  }

  lemma FirstByte(cells: string, rest: seq<Item>)
    requires cells != ""
    ensures Bytes(cells) + rest
         == [Byte(cells[0])] + ((if |cells| > 1 then Bytes(cells[1..]) else []) + rest)
  {
    assert Bytes(cells) == [Byte(cells[0])] + Bytes(cells[1..]);
    if |cells| == 1 { assert Bytes(cells[1..]) == []; }
    hide Bytes;
    var later := if |cells| > 1 then Bytes(cells[1..]) else [];
    assert [Byte(cells[0])] + later + rest == [Byte(cells[0])] + (later + rest);
  }

  lemma LineStep(items: seq<Item>, n: nat, maxLen: int, c: char)
    requires n < maxLen && items != [] && items[0] == Byte(c) && c != '\n'
    ensures var r := LineFrom(items[1..], n + 1, maxLen); LineFrom(items, n, maxLen) == r.(text := [c] + r.text)
  {
  }

  /** The three ways of ending a line with the next item, and the fourth without it. */
  lemma LineEnds(items: seq<Item>, n: nat, maxLen: int)
    ensures n >= maxLen ==> LineFrom(items, n, maxLen) == Line("", n, items)
    ensures n < maxLen ==>
              if items == [] then LineFrom(items, n, maxLen) == Line("", n - 1, [])
              else
                && (items[0] == End ==> LineFrom(items, n, maxLen) == Line("", n - 1, items[1..]))
                && (items[0] == Fail ==> LineFrom(items, n, maxLen) == Line("", -1, items[1..]))
                && (items[0] == Byte('\n') ==> LineFrom(items, n, maxLen) == Line("", n, items[1..]))
  {
  }

  lemma TextGrows(a: string, c: char, b: string)
    ensures a + ([c] + b) == a + [c] + b
  {
  }

  class Reader {
    var events: seq<Event>           // what the next calls of `read` will bring
    var readCnt: int
    var readPtr: nat
    const readBuf: array<char>

    constructor (events: seq<Event>)
      requires ValidEvents(events)
      ensures Valid() && Unread() == Flatten(events) && fresh(readBuf)
    {
      this.events, readCnt, readPtr := events, 0, 0;
      readBuf := new char[BUFFER_SIZE];
    }

    ghost predicate Valid()
      reads this
    {
      readBuf.Length == BUFFER_SIZE && ValidEvents(events) && (readCnt > 0 ==> readPtr + readCnt <= BUFFER_SIZE)
    }

    /** The bytes in the buffer, then the untouched stream. */
    ghost function Unread(): seq<Item>
      requires Valid()
      reads this, readBuf
    {
      (if readCnt > 0 then Bytes(readBuf[readPtr..readPtr + readCnt]) else []) + Flatten(events)
    }

    /** `read (fd, read_buf, sizeof (read_buf))`, with `readCnt` set to its result; past the last event the stream
        is at its end. */
    method Read() returns (interrupted: bool)
      requires Valid() && readCnt <= 0
      modifies this`events, this`readCnt, readBuf
      ensures readBuf.Length == BUFFER_SIZE && ValidEvents(events)
      ensures var es := old(events);
              if es == [] then events == [] && readCnt == 0 && !interrupted
              else
                && events == es[1..] && interrupted == es[0].Interrupted?
                && match es[0]
                   case Data(bytes) => readCnt == |bytes| && readBuf[..readCnt] == bytes
                   case Eof => readCnt == 0
                   case _ => readCnt == -1
    {
      interrupted := false;
      if |events| == 0 {
        readCnt := 0;
        return;
      }
      var e := events[0];
      events := events[1..];
      match e {
        case Data(bytes) =>
          forall i | 0 <= i < |bytes| { readBuf[i] := bytes[i]; }
          readCnt := |bytes|;
        case Eof => readCnt := 0;
        case Interrupted => readCnt, interrupted := -1, true;
        case Failed => readCnt := -1;
      }
    }

    /** The refilling of the buffer in `sockets_socket_my_read`, which retries when it is interrupted. */
    method Refill()
      requires Valid() && readCnt <= 0
      modifies this`events, this`readCnt, readBuf
      ensures ValidEvents(events) && readCnt <= BUFFER_SIZE
      ensures var items := Flatten(old(events));
              if readCnt > 0 then items == Bytes(readBuf[..readCnt]) + Flatten(events)
              else if readCnt == 0 then (items == [] && Flatten(events) == []) || items == [End] + Flatten(events)
              else items == [Fail] + Flatten(events)
    {
      ghost var items := Flatten(events);
      var again := true;
      while again
        invariant readBuf.Length == BUFFER_SIZE && ValidEvents(events) && readCnt <= BUFFER_SIZE
        invariant if again then readCnt <= 0 && Flatten(events) == items
                  else if readCnt > 0 then items == Bytes(readBuf[..readCnt]) + Flatten(events)
                  else if readCnt == 0 then (items == [] && Flatten(events) == []) || items == [End] + Flatten(events)
                  else items == [Fail] + Flatten(events)
        decreases |events|, again
      {
        ghost var es := events;
        again := Read();
        if again { assert [] + Flatten(events) == Flatten(events); }
      }
    }

    /** `sockets_socket_my_read` */
    method MyRead() returns (rc: int, c: char)
      requires Valid()
      modifies this, readBuf
      ensures Valid()
      ensures var items := old(Unread());
              if items == [] then rc == 0 && Unread() == []
              else
                && Unread() == items[1..]
                && match items[0] case Byte(b) => rc == 1 && c == b case End => rc == 0 case Fail => rc == -1
    {
      c := '\0';
      hide Flatten, Bytes;
      if readCnt <= 0 {
        NothingBefore(Flatten(events));
        Refill();
        if readCnt < 0 {
          FirstAndRest(Fail, Flatten(events));
          return -1, c;
        }
        if readCnt == 0 {
          FirstAndRest(End, Flatten(events));
          return 0, c;
        }
        readPtr := 0;
        assert readBuf[0..readCnt] == readBuf[..readCnt];
      }
      c := TakeByte();
      FirstAndRest(Byte(c), Unread());
      rc := 1;
    }

    /** `read_cnt--; *ptr = *read_ptr++;` */
    method TakeByte() returns (c: char)
      requires Valid() && readCnt > 0
      modifies this`readCnt, this`readPtr
      ensures Valid() && old(Unread()) == [Byte(c)] + Unread()
    {
      hide Flatten, Bytes;
      ghost var cells := readBuf[readPtr..readPtr + readCnt];
      readCnt := readCnt - 1;
      c := readBuf[readPtr];
      readPtr := readPtr + 1;
      assert cells[0] == c && cells[1..] == readBuf[readPtr..readPtr + readCnt];
      FirstByte(cells, Flatten(events));
    }

    /** `ATP_sockets_read_line`; on an error the text is not terminated. */
    method ReadLine(str: array<char>, maxLen: int) returns (code: int)
      requires Valid() && str != readBuf && str.Length >= 1 && str.Length >= maxLen
      modifies this, readBuf, str
      ensures Valid()
      ensures var l := ReadOne(old(Unread()), maxLen);
              && code == l.code && Unread() == l.rest && |l.text| < str.Length && str[..|l.text|] == l.text
              && (code != -1 ==> str[|l.text|] == '\0')
    {
      hide LineFrom, Flatten, Bytes, Unread;
      ghost var all := ReadOne(Unread(), maxLen);
      var n, ptr := 1, 0;
      while n < maxLen
        invariant Valid() && 1 <= n && ptr == n - 1 < str.Length
        invariant var r := LineFrom(Unread(), n, maxLen);
                  all == Line(str[..ptr] + r.text, r.code, r.rest)
        decreases maxLen - n
      {
        ghost var items, before := Unread(), str[..ptr];
        LineEnds(items, n, maxLen);
        assert before + "" == before;
        var rc, c := MyRead();
        if rc == 1 {
          if c == '\n' { break; }
          LineStep(items, n, maxLen, c);
          TextGrows(before, c, LineFrom(items[1..], n + 1, maxLen).text);
          str[ptr] := c;
          ptr := ptr + 1;
          assert str[..ptr] == before + [c];
        } else if rc == 0 {
          str[ptr] := '\0';
          assert str[..ptr] == before;
          return n - 1;
        } else {
          return -1;
        }
        n := n + 1;
      }
      LineEnds(Unread(), n, maxLen);
      assert str[..ptr] + "" == str[..ptr];
      ghost var text := str[..ptr];
      str[ptr] := '\0';
      assert str[..ptr] == text;
      code := n;
    }
  }
}
