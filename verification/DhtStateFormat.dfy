/**
 The DHT snapshot format, version 1, as a printer and a parser on byte strings.

 `Encoding` and `Decoding` are the specifications that the imperative codec in module
 `DhtState` meets; the theorems about them are in module `DhtStateTheorems`.
 */
module DhtStateFormat {
  import opened Wrappers
  import opened Bytes

  const MAGIC: bytes := [0x4C, 0x32, 0x44, 0x54] // "L2DT"
  const VERSION: byte := 1
  const HEADER_LEN := |MAGIC| + 1
  const MAX_DHT_EXPORT_BYTES: nat := 4 * 1024 * 1024

  datatype RoutingEntry = RoutingEntry(peerId: bytes, addresses: seq<bytes>)

  datatype DhtStateError =
    | InputTooLarge(got: nat, max: nat)
    | Truncated(offset: nat, need: nat)
    | BadMagic(magic: bytes)
    | UnsupportedVersion(version: byte)

  // ----- Printer -----

  function AddrEncoding(a: bytes): bytes {
    U16ToBe(|a|) + a
  }

  function AddrsEncoding(addrs: seq<bytes>): bytes {
    if addrs == [] then [] else AddrEncoding(addrs[0]) + AddrsEncoding(addrs[1..])
  }

  function EntryEncoding(e: RoutingEntry): bytes {
    U16ToBe(|e.peerId|) + e.peerId + U16ToBe(|e.addresses|) + AddrsEncoding(e.addresses)
  }

  function EntriesEncoding(entries: seq<RoutingEntry>): bytes {
    if entries == [] then [] else EntryEncoding(entries[0]) + EntriesEncoding(entries[1..])
  }

  function HeaderEncoding(count: nat): bytes {
    MAGIC + [VERSION] + U32ToBe(count)
  }

  function Encoding(entries: seq<RoutingEntry>): bytes {
    HeaderEncoding(|entries|) + EntriesEncoding(entries)
  }

  /** No narrowing cast of the printer loses bits on this entry. */
  predicate EntryFits(e: RoutingEntry) {
    |e.peerId| < U16_LIMIT && |e.addresses| < U16_LIMIT && AddrsFit(e.addresses)
  }

  predicate AddrsFit(addrs: seq<bytes>) {
    forall i :: 0 <= i < |addrs| ==> |addrs[i]| < U16_LIMIT
  }

  predicate EntriesFit(entries: seq<RoutingEntry>) {
    forall i :: 0 <= i < |entries| ==> EntryFits(entries[i])
  }

  /** No narrowing cast of the printer loses bits on this table. */
  predicate TableFits(entries: seq<RoutingEntry>) {
    |entries| < U32_LIMIT && EntriesFit(entries)
  }

  // ----- Parser -----

  /** A value and the offset behind it, or the error that stopped the parse. */
  datatype Parsed<+T> = Got(value: T, next: nat) | Failed(error: DhtStateError) {
    predicate IsFailure() {
      Failed?
    }

    function PropagateFailure<U>(): Parsed<U>
      requires Failed?
    {
      Failed(error)
    }

    function Extract(): (T, nat)
      requires Got?
    {
      (value, next)
    }
  }

  function ReadBytes(d: bytes, o: nat, n: nat): Parsed<bytes> {
    if o + n > |d| then Failed(Truncated(o, n)) else Got(d[o..o + n], o + n)
  }

  function ReadU16(d: bytes, o: nat): Parsed<nat> {
    var (b, o1) :- ReadBytes(d, o, 2);
    Got(U16FromBe(b), o1)
  }

  function ParseAddr(d: bytes, o: nat): Parsed<bytes> {
    var (len, o1) :- ReadU16(d, o);
    ReadBytes(d, o1, len)
  }

  function ParseAddrs(d: bytes, o: nat, count: nat): Parsed<seq<bytes>>
    decreases count
  {
    if count == 0 then Got([], o)
    else
      var (a, o1) :- ParseAddr(d, o);
      var (rest, o2) :- ParseAddrs(d, o1, count - 1);
      Got([a] + rest, o2)
  }

  function ParseEntry(d: bytes, o: nat): Parsed<RoutingEntry> {
    var (len, o1) :- ReadU16(d, o);
    var (peerId, o2) :- ReadBytes(d, o1, len);
    var (count, o3) :- ReadU16(d, o2);
    var (addresses, o4) :- ParseAddrs(d, o3, count);
    Got(RoutingEntry(peerId, addresses), o4)
  }

  function ParseEntries(d: bytes, o: nat, count: nat): Parsed<seq<RoutingEntry>>
    decreases count
  {
    if count == 0 then Got([], o)
    else
      var (e, o1) :- ParseEntry(d, o);
      var (rest, o2) :- ParseEntries(d, o1, count - 1);
      Got([e] + rest, o2)
  }

  /** Checks magic and version and yields the declared number of entries. */
  function ParseHeader(d: bytes): Parsed<nat> {
    var (magic, o1) :- ReadBytes(d, 0, 4);
    if magic != MAGIC then Failed(BadMagic(magic)) else
    var (version, o2) :- ReadBytes(d, o1, 1);
    if version[0] != VERSION then Failed(UnsupportedVersion(version[0])) else
    var (count, o3) :- ReadBytes(d, o2, 4);
    Got(U32FromBe(count), o3)
  }

  function ParseTable(d: bytes): Parsed<seq<RoutingEntry>> {
    var (count, o) :- ParseHeader(d);
    ParseEntries(d, o, count)
  }

  function Decoding(d: bytes): Result<seq<RoutingEntry>, DhtStateError> {
    if |d| > MAX_DHT_EXPORT_BYTES then
      Err(InputTooLarge(|d|, MAX_DHT_EXPORT_BYTES))
    else match ParseTable(d)
      case Got(entries, _) => Ok(entries)
      case Failed(error) => Err(error)
  }
}
