/**
 The imperative snapshot codec: `Encode` extends a buffer in nested loops, `Decode` advances a
 cursor over the input. Both are proved against the format of module `DhtStateFormat`.
 */
module DhtState {
  import opened Wrappers
  import opened Bytes
  import opened DhtStateFormat
  import opened DhtStateTheorems

  /** The size estimate with which the buffer is allocated. */
  method EstimateSize(entries: seq<RoutingEntry>) returns (est: nat)
    ensures est == HEADER_LEN + 4 + EntriesSize(entries)
  {
    est := HEADER_LEN + 4;
    for i := 0 to |entries|
      invariant est + EntriesSize(entries[i..]) == HEADER_LEN + 4 + EntriesSize(entries)
    {
      var addresses := entries[i].addresses;
      est := est + 2 + |entries[i].peerId| + 2;
      for j := 0 to |addresses|
        invariant est + AddrsSize(addresses[j..]) + EntriesSize(entries[i + 1..])
               == HEADER_LEN + 4 + EntriesSize(entries)
      {
        est := est + 2 + |addresses[j]|;
        assert addresses[j..][1..] == addresses[j + 1..];
      }
    }
  }

  /**
   Prints a table. The estimate made beforehand is the final length of the buffer, also when the
   narrowing casts lose bits, so the buffer is never reallocated.
   */
  method Encode(entries: seq<RoutingEntry>) returns (buf: bytes, capacity: nat)
    ensures buf == Encoding(entries)
    ensures |buf| == capacity
  {
    capacity := EstimateSize(entries);
    EntriesEncodingSize(entries);

    buf := MAGIC;
    buf := buf + [VERSION];
    buf := buf + U32ToBe(|entries|);
    for i := 0 to |entries|
      invariant buf + EntriesEncoding(entries[i..]) == Encoding(entries)
    {
      ghost var before, rest := buf, EntriesEncoding(entries[i + 1..]);
      buf := AppendEntry(buf, entries[i]);
      assert entries[i..][1..] == entries[i + 1..];
      assert buf + rest == before + (EntryEncoding(entries[i]) + rest) by {
        hide EntryEncoding, EntriesEncoding;
      }
    }
  }

  /** One turn of the entry loop of `Encode`. */
  method AppendEntry(start: bytes, entry: RoutingEntry) returns (buf: bytes)
    ensures buf == start + EntryEncoding(entry)
  {
    buf := start + U16ToBe(|entry.peerId|);
    buf := buf + entry.peerId;
    buf := buf + U16ToBe(|entry.addresses|);
    ghost var head := buf;
    assert head + AddrsEncoding(entry.addresses) == start + EntryEncoding(entry);
    for j := 0 to |entry.addresses|
      invariant buf + AddrsEncoding(entry.addresses[j..]) == head + AddrsEncoding(entry.addresses)
    {
      ghost var before, rest := buf, AddrsEncoding(entry.addresses[j + 1..]);
      var addr := entry.addresses[j];
      buf := buf + U16ToBe(|addr|);
      buf := buf + addr;
      assert entry.addresses[j..][1..] == entry.addresses[j + 1..];
      assert buf + rest == before + (AddrEncoding(addr) + rest);
    }
  }

  /** A read position in a borrowed buffer; `attempts` counts the reads attempted so far. */
  class Cursor {
    const buf: array<byte>
    var offset: nat
    ghost var attempts: nat

    constructor (buf: array<byte>)
      ensures this.buf == buf && offset == 0 && attempts == 0
    {
      this.buf := buf;
      offset := 0;
      attempts := 0;
    }

    method ReadArray(n: nat) returns (r: Result<bytes, DhtStateError>)
      modifies this
      ensures r == Outcome(ReadBytes(buf[..], old(offset), n))
      ensures offset == Position(ReadBytes(buf[..], old(offset), n), old(offset))
      ensures attempts == old(attempts) + 1
    {
      attempts := attempts + 1;
      if offset + n > buf.Length {
        return Err(Truncated(offset, n));
      }
      var out := new byte[n](_ => 0);
      for i := 0 to n
        modifies out
        invariant out[..i] == buf[offset..offset + i]
      {
        out[i] := buf[offset + i];
      }
      offset := offset + n;
      assert out[..] == out[..n];
      r := Ok(out[..]);
    }

    method ReadNat16() returns (r: Result<nat, DhtStateError>)
      modifies this
      ensures r == Outcome(ReadU16(buf[..], old(offset)))
      ensures offset == Position(ReadU16(buf[..], old(offset)), old(offset))
      ensures attempts == old(attempts) + 1
    {
      var b := ReadArray(2);
      match b
      case Ok(value) => r := Ok(U16FromBe(value));
      case Err(error) => r := Err(error);
    }

    method ReadVec(n: nat) returns (r: Result<bytes, DhtStateError>)
      modifies this
      ensures r == Outcome(ReadBytes(buf[..], old(offset), n))
      ensures offset == Position(ReadBytes(buf[..], old(offset), n), old(offset))
      ensures attempts == old(attempts) + 1
    {
      attempts := attempts + 1;
      if offset + n > buf.Length {
        return Err(Truncated(offset, n));
      }
      r := Ok(buf[offset..offset + n]);
      offset := offset + n;
    }
  }

  function Outcome<T>(p: Parsed<T>): Result<T, DhtStateError> {
    match p
    case Got(value, _) => Ok(value)
    case Failed(error) => Err(error)
  }

  /** The cursor moves on success only. */
  function Position<T>(p: Parsed<T>, before: nat): nat {
    match p
    case Got(_, next) => next
    case Failed(_) => before
  }

  /** The parse of a list of which `done` has been collected already. */
  function After<T>(done: seq<T>, rest: Parsed<seq<T>>): Parsed<seq<T>> {
    match rest
    case Got(value, next) => Got(done + value, next)
    case Failed(error) => Failed(error)
  }

  lemma AfterNone<T>(rest: Parsed<seq<T>>)
    ensures After([], rest) == rest
  {
    if rest.Got? {
      assert [] + rest.value == rest.value;
    }
  }

  lemma AfterStep<T>(done: seq<T>, item: T, rest: Parsed<seq<T>>)
    ensures After(done, After([item], rest)) == After(done + [item], rest)
  {
    if rest.Got? {
      assert done + ([item] + rest.value) == done + [item] + rest.value;
    }
  }

  /** Reads `count` addresses: the inner loop of `Decode`. */
  method ReadAddresses(cur: Cursor, count: nat) returns (r: Result<seq<bytes>, DhtStateError>)
    requires cur.offset <= cur.buf.Length
    modifies cur
    ensures var spec := ParseAddrs(cur.buf[..], old(cur.offset), count);
            r == Outcome(spec) && (spec.Got? ==> cur.offset == spec.next)
    ensures old(cur.offset) <= cur.offset <= cur.buf.Length
    ensures cur.attempts - old(cur.attempts) <= cur.offset - old(cur.offset) + 1
    ensures r.Ok? ==> cur.attempts - old(cur.attempts) <= cur.offset - old(cur.offset)
  {
    hide U16FromBe;
    var addresses: seq<bytes> := [];
    ghost var d, start := cur.buf[..], cur.offset;
    AfterNone(ParseAddrs(d, start, count));
    for i := 0 to count
      invariant start <= cur.offset <= cur.buf.Length
      invariant cur.attempts - old(cur.attempts) <= cur.offset - start
      invariant ParseAddrs(d, start, count) == After(addresses, ParseAddrs(d, cur.offset, count - i))
    {
      ghost var at := cur.offset;
      var len := cur.ReadNat16();
      if len.Err? {
        return Err(len.error);
      }
      var addr := cur.ReadVec(len.value);
      if addr.Err? {
        return Err(addr.error);
      }
      assert ParseAddr(d, at) == Got(addr.value, cur.offset);
      AfterStep(addresses, addr.value, ParseAddrs(d, cur.offset, count - i - 1));
      addresses := addresses + [addr.value];
    }
    assert addresses + [] == addresses;
    r := Ok(addresses);
  }

  /** The header checks of `Decode`. */
  method ReadHeader(cur: Cursor) returns (r: Result<nat, DhtStateError>)
    requires cur.offset == cur.attempts == 0
    modifies cur
    ensures r == Outcome(ParseHeader(cur.buf[..]))
    ensures r.Ok? ==> cur.offset == ParseHeader(cur.buf[..]).next == 9 <= cur.buf.Length
    ensures cur.attempts <= 3 && cur.attempts <= cur.buf.Length + 1
  {
    var magic := cur.ReadArray(4);
    if magic.Err? {
      return Err(magic.error);
    }
    if magic.value != MAGIC {
      return Err(BadMagic(magic.value));
    }
    var version := cur.ReadArray(1);
    if version.Err? {
      return Err(version.error);
    }
    if version.value[0] != VERSION {
      return Err(UnsupportedVersion(version.value[0]));
    }
    var count := cur.ReadArray(4);
    if count.Err? {
      return Err(count.error);
    }
    r := Ok(U32FromBe(count.value));
  }

  /** One turn of the entry loop of `Decode`. */
  method ReadEntry(cur: Cursor) returns (r: Result<RoutingEntry, DhtStateError>)
    requires cur.offset <= cur.buf.Length
    modifies cur
    ensures var spec := ParseEntry(cur.buf[..], old(cur.offset));
            r == Outcome(spec) && (spec.Got? ==> cur.offset == spec.next)
    ensures old(cur.offset) <= cur.offset <= cur.buf.Length
    ensures cur.attempts - old(cur.attempts) <= cur.offset - old(cur.offset) + 1
    ensures r.Ok? ==> cur.attempts - old(cur.attempts) < cur.offset - old(cur.offset)
    ensures r.Ok? ==> cur.offset >= old(cur.offset) + 4
  {
    var len := cur.ReadNat16();
    if len.Err? {
      return Err(len.error);
    }
    var peerId := cur.ReadVec(len.value);
    if peerId.Err? {
      return Err(peerId.error);
    }
    var count := cur.ReadNat16();
    if count.Err? {
      return Err(count.error);
    }
    var addresses := ReadAddresses(cur, count.value);
    if addresses.Err? {
      return Err(addresses.error);
    }
    r := Ok(RoutingEntry(peerId.value, addresses.value));
  }

  /**
   Decodes a snapshot. The work is bounded by the input and not by the counts it declares: the
   reads attempted never exceed the input bytes by more than one, and every completed entry has
   used up at least four bytes behind the nine of the header.
   */
  method Decode(data: array<byte>)
    returns (r: Result<seq<RoutingEntry>, DhtStateError>, ghost completed: nat, ghost attempts: nat)
    ensures r == Decoding(data[..])
    ensures attempts <= data.Length + 1
    ensures completed == 0 || 9 + 4 * completed <= data.Length
  {
    hide ParseEntry, ParseHeader;
    completed, attempts := 0, 0;
    if data.Length > MAX_DHT_EXPORT_BYTES {
      return Err(InputTooLarge(data.Length, MAX_DHT_EXPORT_BYTES)), 0, 0;
    }
    ghost var d := data[..];
    var cur := new Cursor(data);

    var declared := ReadHeader(cur);
    attempts := cur.attempts;
    if declared.Err? {
      return Err(declared.error), completed, attempts;
    }
    var count := declared.value;

    var entries: seq<RoutingEntry> := [];
    AfterNone(ParseEntries(d, 9, count));
    for i := 0 to count
      invariant cur.buf == data && data[..] == d
      invariant 9 + 4 * i <= cur.offset <= data.Length && completed == i
      invariant cur.attempts <= cur.offset
      invariant ParseTable(d) == After(entries, ParseEntries(d, cur.offset, count - i))
    {
      var entry := ReadEntry(cur);
      attempts := cur.attempts;
      if entry.Err? {
        return Err(entry.error), completed, attempts;
      }
      AfterStep(entries, entry.value, ParseEntries(d, cur.offset, count - i - 1));
      entries := entries + [entry.value];
      completed := completed + 1;
    }
    attempts := cur.attempts;
    assert entries + [] == entries;
    r := Ok(entries);
  }
}
