/**
 The routing table across a restart: terminate exports, encodes and writes it; the next start
 reads, decodes and imports it.
 */
module Persistence {
  import opened Wrappers
  import opened Bytes
  import opened DhtStateFormat
  import opened DhtStateTheorems
  import DhtState
  import opened FileStorage
  import opened Sequences

  /** libp2p's conversions of peer ids and addresses to bytes and back. */
  datatype Libp2p<!P, !A> = Libp2p(
    peerToBytes: P -> bytes,
    peerFromBytes: bytes -> Option<P>,
    addrToBytes: A -> bytes,
    addrFromBytes: bytes -> Option<A>)

  datatype Peer<P, A> = Peer(id: P, addresses: seq<A>)

  /** Parsing undoes printing on every peer id and address of the table. */
  ghost predicate Faithful<P, A>(lib: Libp2p<P, A>, table: seq<Peer<P, A>>) {
    && (forall p :: p in table ==> lib.peerFromBytes(lib.peerToBytes(p.id)) == Some(p.id))
    && (forall p, a :: p in table && a in p.addresses ==> lib.addrFromBytes(lib.addrToBytes(a)) == Some(a))
  }

  // ----- Export -----

  function ExportAddresses<P, A>(lib: Libp2p<P, A>, addresses: seq<A>): seq<bytes> {
    seq(|addresses|, i requires 0 <= i < |addresses| => lib.addrToBytes(addresses[i]))
  }

  function Export<P, A>(lib: Libp2p<P, A>, table: seq<Peer<P, A>>): seq<RoutingEntry> {
    seq(|table|, i requires 0 <= i < |table| =>
      RoutingEntry(lib.peerToBytes(table[i].id), ExportAddresses(lib, table[i].addresses)))
  }

  /** The table, bucket by bucket. */
  function Flatten<T>(buckets: seq<seq<T>>): seq<T> {
    if buckets == [] then [] else buckets[0] + Flatten(buckets[1..])
  }

  function TotalLength<T>(buckets: seq<seq<T>>): nat {
    if buckets == [] then 0 else |buckets[0]| + TotalLength(buckets[1..])
  }

  /** Element i of bucket b stands behind all elements of the buckets before it. */
  lemma {:induction false} FlattenAt<T>(buckets: seq<seq<T>>, b: nat, i: nat)
    requires b < |buckets| && i < |buckets[b]|
    ensures TotalLength(buckets[..b]) + i < |Flatten(buckets)| == TotalLength(buckets)
    ensures Flatten(buckets)[TotalLength(buckets[..b]) + i] == buckets[b][i]
  {
    FlattenLength(buckets);
    if b > 0 {
      FlattenAt(buckets[1..], b - 1, i);
      assert buckets[..b][1..] == buckets[1..][..b - 1];
    }
  }

  lemma {:induction false} FlattenLength<T>(buckets: seq<seq<T>>)
    ensures |Flatten(buckets)| == TotalLength(buckets)
  {
    if buckets != [] {
      FlattenLength(buckets[1..]);
    }
  }

  /** The printed peer: its id in bytes and its addresses in bytes, in order. */
  predicate PrintsAs<P, A>(lib: Libp2p<P, A>, peer: Peer<P, A>, entry: RoutingEntry) {
    && entry.peerId == lib.peerToBytes(peer.id)
    && |entry.addresses| == |peer.addresses|
    && forall j :: 0 <= j < |peer.addresses| ==> entry.addresses[j] == lib.addrToBytes(peer.addresses[j])
  }

  /** The printed table has one entry for every peer of every bucket, each at its place, and no others. */
  lemma ExportAt<P, A>(lib: Libp2p<P, A>, buckets: seq<seq<Peer<P, A>>>)
    ensures var entries := Export(lib, Flatten(buckets));
            && |entries| == TotalLength(buckets)
            && forall b, i :: 0 <= b < |buckets| && 0 <= i < |buckets[b]| ==>
                 var k := TotalLength(buckets[..b]) + i;
                 k < |entries| && PrintsAs(lib, buckets[b][i], entries[k])
  {
    FlattenLength(buckets);
    var entries := Export(lib, Flatten(buckets));
    forall b, i | 0 <= b < |buckets| && 0 <= i < |buckets[b]|
      ensures var k := TotalLength(buckets[..b]) + i; k < |entries| && PrintsAs(lib, buckets[b][i], entries[k])
    {
      FlattenAt(buckets, b, i);
    }
  }

  /**
   The export command walks the buckets and their entries: one printed entry for every peer of
   every bucket, each at its place, and no other entries.
   */
  method ExportRoutingTable<P, A>(lib: Libp2p<P, A>, buckets: seq<seq<Peer<P, A>>>) returns (entries: seq<RoutingEntry>)
    ensures |entries| == TotalLength(buckets)
    ensures forall b, i :: 0 <= b < |buckets| && 0 <= i < |buckets[b]| ==>
              var k := TotalLength(buckets[..b]) + i;
              k < |entries| && PrintsAs(lib, buckets[b][i], entries[k])
    ensures entries == Export(lib, Flatten(buckets))
  {
    entries := [];
    ghost var done: seq<Peer<P, A>> := [];
    for b := 0 to |buckets|
      invariant done + Flatten(buckets[b..]) == Flatten(buckets)
      invariant entries == Export(lib, done)
    {
      var bucket := buckets[b];
      ghost var before := done;
      for i := 0 to |bucket|
        invariant done == before + bucket[..i]
        invariant entries == Export(lib, done)
      {
        entries := entries + [RoutingEntry(lib.peerToBytes(bucket[i].id), ExportAddresses(lib, bucket[i].addresses))];
        done := done + [bucket[i]];
      }
      assert buckets[b..][1..] == buckets[b + 1..];
      assert done + Flatten(buckets[b + 1..]) == before + (bucket + Flatten(buckets[b + 1..]));
    }
    assert done == Flatten(buckets) by {
      assert buckets[|buckets|..] == [];
    }
    ExportAt(lib, buckets);
  }

  // ----- Import -----

  /** The `add_address` calls for the addresses of one peer; what does not parse is skipped. */
  function AddressCalls<P, A>(lib: Libp2p<P, A>, peer: P, addresses: seq<bytes>): seq<(P, A)> {
    if addresses == [] then []
    else
      (match lib.addrFromBytes(addresses[0])
       case Some(a) => [(peer, a)]
       case None => []) + AddressCalls(lib, peer, addresses[1..])
  }

  function EntryCalls<P, A>(lib: Libp2p<P, A>, e: RoutingEntry): seq<(P, A)> {
    match lib.peerFromBytes(e.peerId)
    case Some(peer) => AddressCalls(lib, peer, e.addresses)
    case None => []
  }

  function ImportCalls<P, A>(lib: Libp2p<P, A>, entries: seq<RoutingEntry>): seq<(P, A)> {
    if entries == [] then [] else EntryCalls(lib, entries[0]) + ImportCalls(lib, entries[1..])
  }

  /** The import command: `add_address` for every pair that parses, counting the calls. */
  method ImportRoutingTable<P, A>(lib: Libp2p<P, A>, entries: seq<RoutingEntry>)
    returns (calls: seq<(P, A)>, count: nat)
    ensures calls == ImportCalls(lib, entries) && count == |calls|
  {
    hide EntryCalls;
    calls, count := [], 0;
    for i := 0 to |entries|
      invariant calls + ImportCalls(lib, entries[i..]) == ImportCalls(lib, entries)
      invariant count == |calls|
    {
      ghost var before, rest := calls, ImportCalls(lib, entries[i + 1..]);
      assert entries[i..][1..] == entries[i + 1..];
      calls, count := ImportEntry(lib, entries[i], calls, count);
      assert calls + rest == before + (EntryCalls(lib, entries[i]) + rest);
    }
  }

  /** One turn of the import loop, on the calls and the count so far. */
  method ImportEntry<P, A>(lib: Libp2p<P, A>, entry: RoutingEntry, calls0: seq<(P, A)>, count0: nat)
    returns (calls: seq<(P, A)>, count: nat)
    ensures calls == calls0 + EntryCalls(lib, entry)
    ensures count - count0 == |calls| - |calls0|
  {
    var peer := lib.peerFromBytes(entry.peerId);
    if peer.None? {
      return calls0, count0;
    }
    calls, count := ImportAddresses(lib, peer.value, entry.addresses, calls0, count0);
  }

  /** The inner loop of the import. */
  method ImportAddresses<P, A>(lib: Libp2p<P, A>, peer: P, addresses: seq<bytes>, calls0: seq<(P, A)>, count0: nat)
    returns (calls: seq<(P, A)>, count: nat)
    ensures calls == calls0 + AddressCalls(lib, peer, addresses)
    ensures count - count0 == |calls| - |calls0|
  {
    calls, count := calls0, count0;
    for j := 0 to |addresses|
      invariant calls + AddressCalls(lib, peer, addresses[j..]) == calls0 + AddressCalls(lib, peer, addresses)
      invariant count - count0 == |calls| - |calls0|
    {
      ghost var before, rest := calls, AddressCalls(lib, peer, addresses[j + 1..]);
      assert addresses[j..][1..] == addresses[j + 1..];
      var addr := lib.addrFromBytes(addresses[j]);
      if addr.None? {
        continue;
      }
      calls := calls + [(peer, addr.value)];
      count := count + 1;
      assert calls + rest == before + ([(peer, addr.value)] + rest);
    }
  }

  lemma {:induction false} AddressCallsConcat<P, A>(lib: Libp2p<P, A>, peer: P, a: seq<bytes>, b: seq<bytes>)
    ensures AddressCalls(lib, peer, a + b) == AddressCalls(lib, peer, a) + AddressCalls(lib, peer, b)
  {
    if a == [] {
      assert a + b == b;
    } else {
      AddressCallsConcat(lib, peer, a[1..], b);
      assert (a + b)[0] == a[0] && (a + b)[1..] == a[1..] + b;
      var first := match lib.addrFromBytes(a[0]) case Some(x) => [(peer, x)] case None => [];
      ConcatIsAssociative(first, AddressCalls(lib, peer, a[1..]), AddressCalls(lib, peer, b));
    }
  }

  lemma {:induction false} ImportCallsConcat<P, A>(lib: Libp2p<P, A>, a: seq<RoutingEntry>, b: seq<RoutingEntry>)
    ensures ImportCalls(lib, a + b) == ImportCalls(lib, a) + ImportCalls(lib, b)
  {
    hide EntryCalls;
    if a == [] {
      assert a + b == b;
    } else {
      ImportCallsConcat(lib, a[1..], b);
      assert (a + b)[0] == a[0] && (a + b)[1..] == a[1..] + b;
      ConcatIsAssociative(EntryCalls(lib, a[0]), ImportCalls(lib, a[1..]), ImportCalls(lib, b));
    }
  }

  /** The pair when both parts of it parse. */
  function PairIfParsed<P, A>(lib: Libp2p<P, A>, peerBytes: bytes, addressBytes: bytes): seq<(P, A)> {
    match (lib.peerFromBytes(peerBytes), lib.addrFromBytes(addressBytes))
    case (Some(peer), Some(address)) => [(peer, address)]
    case _ => []
  }

  /**
   The calls of an import address by address: entry k's address j adds its pair exactly when it
   and the entry's peer id parse, after all calls made for what stands before it and ahead of all
   calls made for what stands behind it. What does not parse costs nothing but itself.
   */
  lemma ImportIsAddressByAddress<P, A>(lib: Libp2p<P, A>, entries: seq<RoutingEntry>, k: nat, j: nat)
    requires k < |entries| && j < |entries[k].addresses|
    ensures var e := entries[k];
            var before := entries[..k] + [RoutingEntry(e.peerId, e.addresses[..j])];
            var behind := [RoutingEntry(e.peerId, e.addresses[j + 1..])] + entries[k + 1..];
            ImportCalls(lib, entries) ==
            ImportCalls(lib, before)
            + PairIfParsed(lib, e.peerId, e.addresses[j])
            + ImportCalls(lib, behind)
  {
    hide AddressCalls;
    var e := entries[k];
    var first, last := RoutingEntry(e.peerId, e.addresses[..j]), RoutingEntry(e.peerId, e.addresses[j + 1..]);
    ImportCallsSplit(lib, entries, k);
    EntryCallsSplit(lib, e, j);
    SingleEntry(lib, first);
    SingleEntry(lib, last);
    ImportCallsConcat(lib, entries[..k], [first]);
    ImportCallsConcat(lib, [last], entries[k + 1..]);
    hide EntryCalls, ImportCalls;
    var here := PairIfParsed(lib, e.peerId, e.addresses[j]);
    var before, behind := ImportCalls(lib, entries[..k]), ImportCalls(lib, entries[k + 1..]);
    ConcatIsAssociative(before, EntryCalls(lib, first) + here, EntryCalls(lib, last));
    ConcatIsAssociative(before, EntryCalls(lib, first), here);
    ConcatIsAssociative(before + EntryCalls(lib, first) + here, EntryCalls(lib, last), behind);
  }

  lemma SingleEntry<P, A>(lib: Libp2p<P, A>, e: RoutingEntry)
    ensures ImportCalls(lib, [e]) == EntryCalls(lib, e)
  {
    assert [e][1..] == [];
  }

  lemma EntryCallsSplit<P, A>(lib: Libp2p<P, A>, e: RoutingEntry, j: nat)
    requires j < |e.addresses|
    ensures EntryCalls(lib, e) ==
            EntryCalls(lib, RoutingEntry(e.peerId, e.addresses[..j]))
            + PairIfParsed(lib, e.peerId, e.addresses[j])
            + EntryCalls(lib, RoutingEntry(e.peerId, e.addresses[j + 1..]))
  {
    if lib.peerFromBytes(e.peerId).Some? {
      AddressCallsSplit(lib, lib.peerFromBytes(e.peerId).value, e.addresses, j);
    }
  }

  lemma ImportCallsSplit<P, A>(lib: Libp2p<P, A>, entries: seq<RoutingEntry>, k: nat)
    requires k < |entries|
    ensures ImportCalls(lib, entries) ==
            ImportCalls(lib, entries[..k]) + EntryCalls(lib, entries[k]) + ImportCalls(lib, entries[k + 1..])
  {
    var front, rest := entries[..k], entries[k..];
    assert rest[0] == entries[k] && rest[1..] == entries[k + 1..];
    assert ImportCalls(lib, rest) == EntryCalls(lib, entries[k]) + ImportCalls(lib, entries[k + 1..]);
    hide ImportCalls, EntryCalls;
    ImportCallsConcat(lib, front, rest);
    assert entries == front + rest;
    ConcatIsAssociative(ImportCalls(lib, front), EntryCalls(lib, entries[k]), ImportCalls(lib, entries[k + 1..]));
  }

  lemma AddressCallsSplit<P, A>(lib: Libp2p<P, A>, peer: P, addresses: seq<bytes>, j: nat)
    requires j < |addresses|
    ensures AddressCalls(lib, peer, addresses) ==
            AddressCalls(lib, peer, addresses[..j])
            + (match lib.addrFromBytes(addresses[j]) case Some(a) => [(peer, a)] case None => [])
            + AddressCalls(lib, peer, addresses[j + 1..])
  {
    var front, rest := addresses[..j], addresses[j..];
    var here := match lib.addrFromBytes(addresses[j]) case Some(a) => [(peer, a)] case None => [];
    assert rest[0] == addresses[j] && rest[1..] == addresses[j + 1..];
    assert AddressCalls(lib, peer, rest) == here + AddressCalls(lib, peer, addresses[j + 1..]);
    hide AddressCalls;
    AddressCallsConcat(lib, peer, front, rest);
    assert addresses == front + rest;
    ConcatIsAssociative(AddressCalls(lib, peer, front), here, AddressCalls(lib, peer, addresses[j + 1..]));
  }

  /** A table without addresses makes no calls. */
  lemma {:induction false} NoAddressesNoCalls<P, A>(lib: Libp2p<P, A>, entries: seq<RoutingEntry>)
    requires forall k :: 0 <= k < |entries| ==> entries[k].addresses == []
    ensures ImportCalls(lib, entries) == []
  {
    if entries != [] {
      NoAddressesNoCalls(lib, entries[1..]);
    }
  }

  // ----- Export and import undo each other -----

  function PeerPairs<P, A>(peer: Peer<P, A>): seq<(P, A)> {
    seq(|peer.addresses|, i requires 0 <= i < |peer.addresses| => (peer.id, peer.addresses[i]))
  }

  /** Every (peer, address) pair of the table, in order. A peer without addresses has none. */
  function Pairs<P, A>(table: seq<Peer<P, A>>): seq<(P, A)> {
    if table == [] then [] else PeerPairs(table[0]) + Pairs(table[1..])
  }

  /** The number of pairs. */
  function AddressCount<P, A>(table: seq<Peer<P, A>>): nat {
    if table == [] then 0 else |table[0].addresses| + AddressCount(table[1..])
  }

  function AddressTotal<P, A>(buckets: seq<seq<Peer<P, A>>>): nat {
    if buckets == [] then 0 else AddressCount(buckets[0]) + AddressTotal(buckets[1..])
  }

  /** Address j of peer i of bucket b is at the place it has when all addresses are written in a row. */
  ghost predicate PairsOfBuckets<P, A>(buckets: seq<seq<Peer<P, A>>>, pairs: seq<(P, A)>) {
    && |pairs| == AddressTotal(buckets)
    && forall b, i, j :: 0 <= b < |buckets| && 0 <= i < |buckets[b]| && 0 <= j < |buckets[b][i].addresses| ==>
         PairAt(buckets, b, i, j, pairs)
  }

  ghost predicate PairAt<P, A>(buckets: seq<seq<Peer<P, A>>>, b: nat, i: nat, j: nat, pairs: seq<(P, A)>)
    requires b < |buckets| && i < |buckets[b]| && j < |buckets[b][i].addresses|
  {
    var k := AddressTotal(buckets[..b]) + AddressCount(buckets[b][..i]) + j;
    k < |pairs| && pairs[k] == (buckets[b][i].id, buckets[b][i].addresses[j])
  }

  lemma {:induction false} PairsAt<P, A>(table: seq<Peer<P, A>>, i: nat, j: nat)
    requires i < |table| && j < |table[i].addresses|
    ensures AddressCount(table[..i]) + j < |Pairs(table)|
    ensures Pairs(table)[AddressCount(table[..i]) + j] == (table[i].id, table[i].addresses[j])
  {
    if i > 0 {
      PairsAt(table[1..], i - 1, j);
      assert table[..i][1..] == table[1..][..i - 1];
    }
  }

  lemma {:induction false} PairsLength<P, A>(table: seq<Peer<P, A>>)
    ensures |Pairs(table)| == AddressCount(table)
  {
    if table != [] {
      PairsLength(table[1..]);
    }
  }

  lemma {:induction false} PairsConcat<P, A>(a: seq<Peer<P, A>>, b: seq<Peer<P, A>>)
    ensures Pairs(a + b) == Pairs(a) + Pairs(b)
  {
    if a == [] {
      assert a + b == b;
    } else {
      PairsConcat(a[1..], b);
      assert (a + b)[0] == a[0] && (a + b)[1..] == a[1..] + b;
      ConcatIsAssociative(PeerPairs(a[0]), Pairs(a[1..]), Pairs(b));
    }
  }

  lemma {:induction false} BucketPairAt<P, A>(buckets: seq<seq<Peer<P, A>>>, b: nat, i: nat, j: nat)
    requires b < |buckets| && i < |buckets[b]| && j < |buckets[b][i].addresses|
    ensures PairAt(buckets, b, i, j, Pairs(Flatten(buckets)))
  {
    var bucket, rest := buckets[0], buckets[1..];
    PairsConcat(bucket, Flatten(rest));
    PairsLength(bucket);
    if b == 0 {
      PairsAt(bucket, i, j);
    } else {
      assert buckets[..b][1..] == rest[..b - 1];
      assert AddressTotal(buckets[..b]) == AddressCount(bucket) + AddressTotal(rest[..b - 1]);
      assert Pairs(Flatten(buckets)) == Pairs(bucket) + Pairs(Flatten(rest));
      hide Flatten, Pairs, AddressTotal, AddressCount;
      BucketPairAt(rest, b - 1, i, j);
    }
  }

  lemma {:induction false} BucketPairsLength<P, A>(buckets: seq<seq<Peer<P, A>>>)
    ensures |Pairs(Flatten(buckets))| == AddressTotal(buckets)
  {
    if buckets != [] {
      PairsConcat(buckets[0], Flatten(buckets[1..]));
      PairsLength(buckets[0]);
      BucketPairsLength(buckets[1..]);
    }
  }

  /** Nothing is lost or reordered between the buckets and the list of pairs. */
  lemma PairsFollowTheBuckets<P, A>(buckets: seq<seq<Peer<P, A>>>)
    ensures PairsOfBuckets(buckets, Pairs(Flatten(buckets)))
  {
    BucketPairsLength(buckets);
    var pairs := Pairs(Flatten(buckets));
    forall b, i, j | 0 <= b < |buckets| && 0 <= i < |buckets[b]| && 0 <= j < |buckets[b][i].addresses|
      ensures PairAt(buckets, b, i, j, pairs)
    {
      BucketPairAt(buckets, b, i, j);
    }
  }

  lemma {:induction false} AddressesComeBack<P, A>(lib: Libp2p<P, A>, peer: P, addresses: seq<A>)
    requires forall a :: a in addresses ==> lib.addrFromBytes(lib.addrToBytes(a)) == Some(a)
    ensures AddressCalls(lib, peer, ExportAddresses(lib, addresses)) == PeerPairs(Peer(peer, addresses))
  {
    if addresses != [] {
      AddressesComeBack(lib, peer, addresses[1..]);
      assert ExportAddresses(lib, addresses)[1..] == ExportAddresses(lib, addresses[1..]);
      assert PeerPairs(Peer(peer, addresses))[1..] == PeerPairs(Peer(peer, addresses[1..]));
    }
  }

  lemma {:induction false} ImportUndoesExport<P, A>(lib: Libp2p<P, A>, table: seq<Peer<P, A>>)
    requires Faithful(lib, table)
    ensures ImportCalls(lib, Export(lib, table)) == Pairs(table)
  {
    if table != [] {
      assert table[0] in table;
      AddressesComeBack(lib, table[0].id, table[0].addresses);
      assert Peer(table[0].id, table[0].addresses) == table[0];
      assert Export(lib, table)[1..] == Export(lib, table[1..]);
      ImportUndoesExport(lib, table[1..]);
    }
  }

  /** What a starting node adds from these snapshot bytes; a snapshot that is refused adds nothing. */
  function Restored<P, A>(lib: Libp2p<P, A>, blob: bytes): seq<(P, A)> {
    match Decoding(blob)
    case Ok(entries) => ImportCalls(lib, entries)
    case Err(_) => []
  }

  /**
   The snapshot format keeps the routing table exactly when it is within the size cap (or there is
   nothing to keep): the export is not capped, so a larger table is written and then refused.
   */
  lemma SnapshotKeepsTableIff<P, A>(lib: Libp2p<P, A>, table: seq<Peer<P, A>>)
    requires Faithful(lib, table) && EntriesFit(Export(lib, table))
    ensures Restored(lib, Encoding(Export(lib, table))) == Pairs(table) <==>
            |Encoding(Export(lib, table))| <= MAX_DHT_EXPORT_BYTES || Pairs(table) == []
  {
    var entries := Export(lib, table);
    ImportUndoesExport(lib, table);
    RoundTripIff(entries);
    HeaderRefusedIff(Encoding(entries));
  }

  /** Peers with one address of the greatest length that fits. */
  function LargeTable(n: nat): seq<Peer<bytes, bytes>> {
    seq(n, _ => Peer([], [Zeros(U16_LIMIT - 1)]))
  }

  function PlainBytes(): Libp2p<bytes, bytes> {
    Libp2p(b => b, b => Some(b), b => b, b => Some(b))
  }

  lemma {:induction false} LargeTableSize(n: nat)
    ensures EntriesSize(Export(PlainBytes(), LargeTable(n))) == n * (U16_LIMIT + 5)
  {
    if n > 0 {
      var entries := Export(PlainBytes(), LargeTable(n));
      assert entries[1..] == Export(PlainBytes(), LargeTable(n - 1));
      assert entries[0].addresses[1..] == [] && AddrsSize([]) == 0;
      assert AddrsSize(entries[0].addresses) == 2 + (U16_LIMIT - 1);
      LargeTableSize(n - 1);
    }
  }

  /** A table whose fields all fit is exported, written, and then lost for being over the cap. */
  lemma LargeTableIsLost()
    ensures var lib, table := PlainBytes(), LargeTable(65);
            && Faithful(lib, table) && EntriesFit(Export(lib, table))
            && Pairs(table) != []
            && Restored(lib, Encoding(Export(lib, table))) == []
  {
    var lib, table := PlainBytes(), LargeTable(65);
    LargeTableSize(65);
    EntriesEncodingSize(Export(lib, table));
    HeaderRefusedIff(Encoding(Export(lib, table)));
    assert |PeerPairs(table[0])| == 1;
  }

  /** The snapshot of this table will be accepted and parsed back. */
  ghost predicate Survives<P, A>(lib: Libp2p<P, A>, table: seq<Peer<P, A>>) {
    && Faithful(lib, table)
    && EntriesFit(Export(lib, table))
    && |Encoding(Export(lib, table))| <= MAX_DHT_EXPORT_BYTES
  }

  // ----- The node -----

  /** What a starting node with this snapshot path adds to its routing table. */
  function BootCalls<P, A>(lib: Libp2p<P, A>, fs: FileSystem, path: string): seq<(P, A)> {
    match ReadFile(fs, path)
    case Ok(blob) => Restored(lib, blob)
    case Err(_) => []
  }

  /**
   `maybe_export_dht_state` of a terminating node. `answered` is false when the query fails or
   the DHT is not enabled; nothing is written then.
   */
  method Terminate<P, A>(lib: Libp2p<P, A>, buckets: seq<seq<Peer<P, A>>>, answered: bool,
                         disk: Disk, path: string, faults: Faults) returns (written: bool)
    modifies disk
    ensures |old(disk.states)| <= |disk.states| && disk.states[..|old(disk.states)|] == old(disk.states)
    ensures AtomicWrite(old(disk.files), disk.states[|old(disk.states)|..], path,
                        Encoding(Export(lib, Flatten(buckets))), written)
    ensures Look(disk.files, path) ==
            if written then Snapshot(Encoding(Export(lib, Flatten(buckets)))) else Look(old(disk.files), path)
    ensures answered && faults.write.None? && !faults.chmod && !faults.rename ==> written
    ensures !answered ==> !written && disk.states == old(disk.states) && disk.files == old(disk.files)
  {
    if !answered {
      return false;
    }
    var entries := ExportRoutingTable(lib, buckets);
    var blob, _ := DhtState.Encode(entries);
    var r := Write(disk, path, blob, faults);
    written := r.Ok?;
  }

  /** `maybe_import_dht_state` of a starting node with the DHT enabled. */
  method Boot<P, A>(lib: Libp2p<P, A>, disk: Disk, path: string) returns (calls: seq<(P, A)>, count: nat)
    ensures calls == BootCalls(lib, disk.files, path) && count == |calls|
  {
    var read := ReadFile(disk.files, path);
    if read.Err? {
      return [], 0;
    }
    var data := new byte[|read.value|](i requires 0 <= i < |read.value| => read.value[i]);
    assert data[..] == read.value;
    var decoded, _, _ := DhtState.Decode(data);
    if decoded.Err? {
      return [], 0;
    }
    calls, count := ImportRoutingTable(lib, decoded.value);
  }

  /**
   Restart. When the snapshot was written, the new node adds exactly the exported pairs, in order,
   and counts them, provided that lengths fit their fields and the snapshot fits the cap. When it
   was not written, the new node adds exactly what it would have added before.
   */
  method Restart<P, A>(lib: Libp2p<P, A>, buckets: seq<seq<Peer<P, A>>>, answered: bool,
                       disk: Disk, path: string, faults: Faults)
    returns (written: bool, calls: seq<(P, A)>, count: nat)
    modifies disk
    ensures written && Survives(lib, Flatten(buckets)) ==> PairsOfBuckets(buckets, calls)
    ensures written ==> calls == Restored(lib, Encoding(Export(lib, Flatten(buckets))))
    ensures !written ==> calls == BootCalls(lib, old(disk.files), path)
    ensures count == |calls|
    ensures answered && faults.write.None? && !faults.chmod && !faults.rename ==> written
    ensures !answered ==> !written
  {
    written := Terminate(lib, buckets, answered, disk, path, faults);
    calls, count := Boot(lib, disk, path);
    if Survives(lib, Flatten(buckets)) {
      SnapshotKeepsTableIff(lib, Flatten(buckets));
      PairsFollowTheBuckets(buckets);
    }
  }

  /**
   Crash safety: killed at any moment of the write, the node restarts with the pairs of the old
   snapshot or with those of the new one, never with anything else.
   */
  lemma CrashLeavesOldOrNewTable<P, A>(lib: Libp2p<P, A>, before: FileSystem, states: seq<FileSystem>,
                                       path: string, table: seq<Peer<P, A>>, ok: bool, i: nat)
    requires AtomicWrite(before, states, path, Encoding(Export(lib, table)), ok) && i < |states|
    ensures BootCalls(lib, states[i], path) == BootCalls(lib, before, path)
         || BootCalls(lib, states[i], path) == Restored(lib, Encoding(Export(lib, table)))
    ensures Survives(lib, table) ==>
              || BootCalls(lib, states[i], path) == BootCalls(lib, before, path)
              || BootCalls(lib, states[i], path) == Pairs(table)
  {
    hide Encoding, Decoding, Export, ImportCalls, Pairs, Faithful, EntriesFit;
    if Survives(lib, table) {
      SnapshotKeepsTableIff(lib, table);
    }
    var blob := Encoding(Export(lib, table));
    assert Look(states[i], path) == Look(before, path) || Look(states[i], path) == Snapshot(blob);
  }
}
