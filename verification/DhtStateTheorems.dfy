/** Theorems about the DHT snapshot format: what the parser accepts, what it refuses, and why. */
module DhtStateTheorems {
  import opened Wrappers
  import opened Bytes
  import opened DhtStateFormat

  /** `s` occurs in `d` at offset `o`. */
  predicate At(d: bytes, o: nat, s: bytes) {
    o + |s| <= |d| && d[o..o + |s|] == s
  }

  /** `d` ends, from offset `o`, strictly inside `s`. */
  predicate Cut(d: bytes, o: nat, s: bytes) {
    o <= |d| && d[o..] < s
  }

  function Zeros(n: nat): bytes {
    seq(n, _ => 0)
  }

  lemma AtConcat(d: bytes, o: nat, s: bytes, t: bytes)
    ensures At(d, o, s + t) <==> At(d, o, s) && At(d, o + |s|, t)
  {
    if At(d, o, s) && At(d, o + |s|, t) {
      assert d[o..o + |s + t|] == d[o..o + |s|] + d[o + |s|..o + |s| + |t|];
    }
    if At(d, o, s + t) {
      assert d[o..o + |s|] == (s + t)[..|s|] == s;
      assert d[o + |s|..o + |s| + |t|] == (s + t)[|s|..] == t;
    }
  }

  lemma CutConcat(d: bytes, o: nat, s: bytes, t: bytes)
    requires At(d, o, s) && Cut(d, o + |s|, t)
    ensures Cut(d, o, s + t)
  {
    assert d[o..] == s + d[o + |s|..];
  }

  lemma CutExtend(d: bytes, o: nat, s: bytes, t: bytes)
    requires Cut(d, o, s)
    ensures Cut(d, o, s + t)
  {
  }

  // ----- Printed tables are accepted -----

  lemma AcceptU16(d: bytes, o: nat, n: nat)
    requires n < U16_LIMIT && At(d, o, U16ToBe(n))
    ensures ReadU16(d, o) == Got(n, o + 2)
  {
    U16RoundTrip(n);
  }

  lemma AcceptAddr(d: bytes, o: nat, a: bytes)
    requires |a| < U16_LIMIT && At(d, o, AddrEncoding(a))
    ensures ParseAddr(d, o) == Got(a, o + |AddrEncoding(a)|)
  {
    AtConcat(d, o, U16ToBe(|a|), a);
    AcceptU16(d, o, |a|);
  }

  lemma {:induction false} AcceptAddrs(d: bytes, o: nat, addrs: seq<bytes>)
    requires AddrsFit(addrs) && o <= |d| && At(d, o, AddrsEncoding(addrs))
    ensures ParseAddrs(d, o, |addrs|) == Got(addrs, o + |AddrsEncoding(addrs)|)
    decreases |addrs|
  {
    if addrs != [] {
      AtConcat(d, o, AddrEncoding(addrs[0]), AddrsEncoding(addrs[1..]));
      AcceptAddr(d, o, addrs[0]);
      AcceptAddrs(d, o + |AddrEncoding(addrs[0])|, addrs[1..]);
      assert addrs == [addrs[0]] + addrs[1..];
    }
  }

  lemma AcceptEntry(d: bytes, o: nat, e: RoutingEntry)
    requires EntryFits(e) && At(d, o, EntryEncoding(e))
    ensures ParseEntry(d, o) == Got(e, o + |EntryEncoding(e)|)
  {
    hide AddrsEncoding, AddrsFit, ParseAddrs;
    var len, count := U16ToBe(|e.peerId|), U16ToBe(|e.addresses|);
    AtConcat(d, o, len + e.peerId + count, AddrsEncoding(e.addresses));
    AtConcat(d, o, len + e.peerId, count);
    AtConcat(d, o, len, e.peerId);
    AcceptU16(d, o, |e.peerId|);
    AcceptU16(d, o + 2 + |e.peerId|, |e.addresses|);
    AcceptAddrs(d, o + 4 + |e.peerId|, e.addresses);
  }

  lemma {:induction false} AcceptEntries(d: bytes, o: nat, entries: seq<RoutingEntry>)
    requires EntriesFit(entries) && o <= |d| && At(d, o, EntriesEncoding(entries))
    ensures ParseEntries(d, o, |entries|) == Got(entries, o + |EntriesEncoding(entries)|)
    decreases |entries|
  {
    hide EntryEncoding, EntryFits, ParseEntry;
    if entries != [] {
      AtConcat(d, o, EntryEncoding(entries[0]), EntriesEncoding(entries[1..]));
      AcceptEntry(d, o, entries[0]);
      AcceptEntries(d, o + |EntryEncoding(entries[0])|, entries[1..]);
      assert entries == [entries[0]] + entries[1..];
    }
  }

  lemma AcceptHeader(d: bytes, count: nat)
    requires count < U32_LIMIT && At(d, 0, HeaderEncoding(count))
    ensures |d| >= 9 && d[..4] == MAGIC && d[4] == VERSION && U32FromBe(d[5..9]) == count
  {
    AtConcat(d, 0, MAGIC + [VERSION], U32ToBe(count));
    AtConcat(d, 0, MAGIC, [VERSION]);
    U32RoundTrip(count);
  }

  lemma AcceptTable(d: bytes, entries: seq<RoutingEntry>)
    requires TableFits(entries) && At(d, 0, Encoding(entries))
    ensures ParseTable(d) == Got(entries, |Encoding(entries)|)
  {
    AtConcat(d, 0, HeaderEncoding(|entries|), EntriesEncoding(entries));
    AcceptHeader(d, |entries|);
    AcceptEntries(d, 9, entries);
  }

  // ----- Only printed tables are accepted -----

  lemma CanonicalU16(d: bytes, o: nat)
    requires ReadU16(d, o).Got?
    ensures var r := ReadU16(d, o); r.value < U16_LIMIT && r.next == o + 2 && At(d, o, U16ToBe(r.value))
  {
    U16Canonical(d[o..o + 2]);
  }

  lemma CanonicalAddr(d: bytes, o: nat)
    requires ParseAddr(d, o).Got?
    ensures var r := ParseAddr(d, o);
            && |r.value| < U16_LIMIT
            && r.next == o + |AddrEncoding(r.value)|
            && At(d, o, AddrEncoding(r.value))
  {
    CanonicalU16(d, o);
    var a := ParseAddr(d, o).value;
    AtConcat(d, o, U16ToBe(|a|), a);
  }

  lemma {:induction false} CanonicalAddrs(d: bytes, o: nat, count: nat)
    requires o <= |d| && ParseAddrs(d, o, count).Got?
    ensures var r := ParseAddrs(d, o, count);
            && |r.value| == count && AddrsFit(r.value)
            && r.next == o + |AddrsEncoding(r.value)|
            && At(d, o, AddrsEncoding(r.value))
    decreases count
  {
    if count > 0 {
      CanonicalAddr(d, o);
      var first := ParseAddr(d, o);
      CanonicalAddrs(d, first.next, count - 1);
      var rest := ParseAddrs(d, first.next, count - 1);
      AtConcat(d, o, AddrEncoding(first.value), AddrsEncoding(rest.value));
      assert ([first.value] + rest.value)[1..] == rest.value;
    }
  }

  lemma CanonicalEntry(d: bytes, o: nat)
    requires o <= |d| && ParseEntry(d, o).Got?
    ensures var r := ParseEntry(d, o);
            && EntryFits(r.value)
            && r.next == o + |EntryEncoding(r.value)|
            && At(d, o, EntryEncoding(r.value))
  {
    hide At, ParseEntry, ParseAddrs, ReadU16, U16ToBe, U16FromBe, AddrsEncoding;
    var e := ParseEntry(d, o).value;
    var p := o + 2 + |e.peerId|;
    PartsOfParsedEntry(d, o);
    CanonicalU16(d, o);
    CanonicalU16(d, p);
    CanonicalAddrs(d, p + 2, ReadU16(d, p).value);
    U16Length(|e.peerId|);
    U16Length(|e.addresses|);
    var len, count := U16ToBe(|e.peerId|), U16ToBe(|e.addresses|);
    AtConcat(d, o, len, e.peerId);
    AtConcat(d, o, len + e.peerId, count);
    AtConcat(d, o, len + e.peerId + count, AddrsEncoding(e.addresses));
  }

  lemma PartsOfParsedEntry(d: bytes, o: nat)
    requires ParseEntry(d, o).Got?
    ensures var r, len := ParseEntry(d, o), ReadU16(d, o);
            && len.Got? && len.value == |r.value.peerId|
            && At(d, o + 2, r.value.peerId)
            && var count := ReadU16(d, o + 2 + len.value);
            && count.Got? && o + 4 + len.value <= |d|
            && ParseAddrs(d, o + 4 + len.value, count.value) == Got(r.value.addresses, r.next)
  {
    hide U16FromBe, ParseAddrs;
  }

  lemma {:induction false} CanonicalEntries(d: bytes, o: nat, count: nat)
    requires o <= |d| && ParseEntries(d, o, count).Got?
    ensures var r := ParseEntries(d, o, count);
            && |r.value| == count && EntriesFit(r.value)
            && r.next == o + |EntriesEncoding(r.value)|
            && At(d, o, EntriesEncoding(r.value))
    decreases count
  {
    hide EntryEncoding, EntryFits;
    if count > 0 {
      CanonicalEntry(d, o);
      var first := ParseEntry(d, o);
      CanonicalEntries(d, first.next, count - 1);
      var rest := ParseEntries(d, first.next, count - 1);
      AtConcat(d, o, EntryEncoding(first.value), EntriesEncoding(rest.value));
      assert ([first.value] + rest.value)[1..] == rest.value;
    }
  }

  lemma CanonicalHeader(d: bytes)
    requires 9 <= |d| && d[..4] == MAGIC && d[4] == VERSION
    ensures U32FromBe(d[5..9]) < U32_LIMIT && At(d, 0, HeaderEncoding(U32FromBe(d[5..9])))
  {
    U32Canonical(d[5..9]);
    AtConcat(d, 0, MAGIC, [VERSION]);
    AtConcat(d, 0, MAGIC + [VERSION], d[5..9]);
  }

  lemma CanonicalTable(d: bytes)
    requires ParseTable(d).Got?
    ensures TableFits(ParseTable(d).value) && At(d, 0, Encoding(ParseTable(d).value))
    ensures ParseTable(d).next == |Encoding(ParseTable(d).value)|
  {
    CanonicalHeader(d);
    var entries := ParseTable(d).value;
    CanonicalEntries(d, 9, U32FromBe(d[5..9]));
    AtConcat(d, 0, HeaderEncoding(|entries|), EntriesEncoding(entries));
  }

  // ----- A truncated input is the start of some printed table -----

  lemma CutU16(d: bytes, o: nat) returns (n: nat)
    requires o <= |d| && ReadU16(d, o).Failed?
    ensures ReadU16(d, o).error == Truncated(o, 2)
    ensures n < U16_LIMIT && Cut(d, o, U16ToBe(n))
  {
    if o < |d| {
      var b: int := d[o];
      n := b * 0x100;
      assert d[o..] == [d[o]] && U16ToBe(n) == [d[o], 0];
    } else {
      n := 0;
      assert d[o..] == [];
    }
  }

  lemma CutBytes(d: bytes, o: nat, n: nat) returns (s: bytes)
    requires o <= |d| && ReadBytes(d, o, n).Failed?
    ensures |s| == n && Cut(d, o, s)
  {
    s := d[o..] + Zeros(n - (|d| - o));
  }

  lemma CutAddr(d: bytes, o: nat) returns (a: bytes)
    requires o <= |d| && ParseAddr(d, o).Failed?
    ensures |a| < U16_LIMIT && Cut(d, o, AddrEncoding(a))
  {
    if ReadU16(d, o).Failed? {
      var n := CutU16(d, o);
      a := Zeros(n);
      CutExtend(d, o, U16ToBe(n), a);
    } else {
      CanonicalU16(d, o);
      a := CutBytes(d, o + 2, ReadU16(d, o).value);
      CutConcat(d, o, U16ToBe(|a|), a);
    }
  }

  lemma {:induction false} CutAddrs(d: bytes, o: nat, count: nat) returns (addrs: seq<bytes>)
    requires o <= |d| && ParseAddrs(d, o, count).Failed?
    ensures |addrs| == count && AddrsFit(addrs) && Cut(d, o, AddrsEncoding(addrs))
    decreases count
  {
    var first := ParseAddr(d, o);
    if first.Failed? {
      var a := CutAddr(d, o);
      addrs := [a] + seq(count - 1, _ => []);
      CutExtend(d, o, AddrEncoding(a), AddrsEncoding(addrs[1..]));
    } else {
      CanonicalAddr(d, o);
      var rest := CutAddrs(d, first.next, count - 1);
      addrs := [first.value] + rest;
      assert addrs[1..] == rest;
      CutConcat(d, o, AddrEncoding(first.value), AddrsEncoding(rest));
    }
  }

  lemma CutEntry(d: bytes, o: nat) returns (e: RoutingEntry)
    requires o <= |d| && ParseEntry(d, o).Failed?
    ensures EntryFits(e) && Cut(d, o, EntryEncoding(e))
  {
    var len := ReadU16(d, o);
    if len.Failed? {
      var n := CutU16(d, o);
      e := RoutingEntry(Zeros(n), []);
      CutExtend(d, o, U16ToBe(n), e.peerId);
      CutExtend(d, o, U16ToBe(n) + e.peerId, U16ToBe(0));
      CutExtend(d, o, U16ToBe(n) + e.peerId + U16ToBe(0), AddrsEncoding([]));
      return;
    }
    CanonicalU16(d, o);
    var peerId := ReadBytes(d, o + 2, len.value);
    if peerId.Failed? {
      var s := CutBytes(d, o + 2, len.value);
      e := RoutingEntry(s, []);
      CutConcat(d, o, U16ToBe(|s|), s);
      CutExtend(d, o, U16ToBe(|s|) + s, U16ToBe(0));
      CutExtend(d, o, U16ToBe(|s|) + s + U16ToBe(0), AddrsEncoding([]));
      return;
    }
    AtConcat(d, o, U16ToBe(len.value), peerId.value);
    e := CutEntryAddresses(d, o, peerId.value);
  }

  /** The cut is behind the peer id. */
  lemma CutEntryAddresses(d: bytes, o: nat, peerId: bytes) returns (e: RoutingEntry)
    requires |peerId| < U16_LIMIT && At(d, o, U16ToBe(|peerId|) + peerId)
    requires var count := ReadU16(d, o + 2 + |peerId|);
             count.Failed? || ParseAddrs(d, count.next, count.value).Failed?
    ensures EntryFits(e) && Cut(d, o, EntryEncoding(e))
  {
    var head, p := U16ToBe(|peerId|) + peerId, o + 2 + |peerId|;
    var count := ReadU16(d, p);
    if count.Failed? {
      var n := CutU16(d, p);
      e := RoutingEntry(peerId, seq(n, _ => []));
      CutConcat(d, o, head, U16ToBe(n));
      CutExtend(d, o, head + U16ToBe(n), AddrsEncoding(e.addresses));
    } else {
      CanonicalU16(d, p);
      var addrs := CutAddrs(d, count.next, count.value);
      e := RoutingEntry(peerId, addrs);
      AtConcat(d, o, head, U16ToBe(|addrs|));
      CutConcat(d, o, head + U16ToBe(|addrs|), AddrsEncoding(addrs));
    }
  }

  lemma EmptyEntryFits()
    ensures EntryFits(RoutingEntry([], []))
  {
  }

  lemma {:induction false} CutEntries(d: bytes, o: nat, count: nat) returns (entries: seq<RoutingEntry>)
    requires o <= |d| && ParseEntries(d, o, count).Failed?
    ensures |entries| == count && EntriesFit(entries) && Cut(d, o, EntriesEncoding(entries))
    decreases count
  {
    hide ParseEntry, EntryEncoding, EntryFits;
    var first := ParseEntry(d, o);
    if first.Failed? {
      var e := CutEntry(d, o);
      entries := [e] + seq(count - 1, _ => RoutingEntry([], []));
      assert EntryFits(RoutingEntry([], [])) by { EmptyEntryFits(); }
      CutExtend(d, o, EntryEncoding(e), EntriesEncoding(entries[1..]));
    } else {
      CanonicalEntry(d, o);
      var rest := CutEntries(d, first.next, count - 1);
      entries := [first.value] + rest;
      assert entries[1..] == rest;
      CutConcat(d, o, EntryEncoding(first.value), EntriesEncoding(rest));
    }
  }

  lemma CutTable(d: bytes) returns (entries: seq<RoutingEntry>)
    requires |d| >= 4 && ParseTable(d).Failed? && ParseTable(d).error.Truncated?
    ensures TableFits(entries) && Cut(d, 0, Encoding(entries))
  {
    if |d| == 4 {
      entries := [];
      assert Encoding([])[..4] == MAGIC == d;
    } else if |d| < 9 {
      var count := d[5..] + Zeros(9 - |d|);
      U32Canonical(count);
      entries := seq(U32FromBe(count), _ => RoutingEntry([], []));
      assert d == MAGIC + [VERSION] + d[5..];
      CutExtend(d, 0, HeaderEncoding(|entries|), EntriesEncoding(entries));
    } else {
      CanonicalHeader(d);
      entries := CutEntries(d, 9, U32FromBe(d[5..9]));
      CutConcat(d, 0, HeaderEncoding(|entries|), EntriesEncoding(entries));
    }
  }

  // ----- Behaviour of the parser on a longer input -----

  /** Nothing is consumed or reported before offset `o`; a failure names bytes that are missing. */
  predicate Progresses<T>(d: bytes, o: nat, r: Parsed<T>) {
    match r
    case Got(_, next) => o <= next <= |d|
    case Failed(Truncated(offset, need)) => o <= offset <= |d| < offset + need
    case Failed(_) => false
  }

  /**
   `r` on `d` and `s` on `d + t`, both from the same offset: success is unchanged, and a
   truncation is reported again, word for word, exactly as long as the missing bytes are missing.
   */
  predicate Extends<T(==)>(d: bytes, t: bytes, r: Parsed<T>, s: Parsed<T>) {
    match r
    case Got(_, _) => s == r
    case Failed(Truncated(offset, need)) =>
      if |d + t| < offset + need then s.Failed? && s.error == r.error
      else Progresses(d + t, offset + need, s)
    case Failed(_) => false
  }

  lemma ExtendBytes(d: bytes, t: bytes, o: nat, n: nat)
    requires o <= |d|
    ensures Progresses(d, o, ReadBytes(d, o, n)) && Extends(d, t, ReadBytes(d, o, n), ReadBytes(d + t, o, n))
  {
    if o + n <= |d| {
      assert (d + t)[o..o + n] == d[o..o + n];
    }
  }

  lemma ExtendAddr(d: bytes, t: bytes, o: nat)
    requires o <= |d|
    ensures Progresses(d, o, ParseAddr(d, o)) && Extends(d, t, ParseAddr(d, o), ParseAddr(d + t, o))
  {
    ExtendBytes(d, t, o, 2);
    if o + 2 <= |d + t| {
      ExtendBytes(d + t, [], o + 2, U16FromBe((d + t)[o..o + 2]));
    }
    if o + 2 <= |d| {
      ExtendBytes(d, t, o + 2, U16FromBe(d[o..o + 2]));
    }
  }

  lemma {:induction false} ProgressAddrs(d: bytes, o: nat, count: nat)
    requires o <= |d|
    ensures Progresses(d, o, ParseAddrs(d, o, count))
    decreases count
  {
    if count > 0 {
      ExtendAddr(d, [], o);
      if ParseAddr(d, o).Got? {
        ProgressAddrs(d, ParseAddr(d, o).next, count - 1);
      }
    }
  }

  lemma {:induction false} ExtendAddrs(d: bytes, t: bytes, o: nat, count: nat)
    requires o <= |d|
    ensures Extends(d, t, ParseAddrs(d, o, count), ParseAddrs(d + t, o, count))
    decreases count
  {
    if count > 0 {
      ExtendAddr(d, t, o);
      ExtendAddr(d + t, [], o);
      if ParseAddr(d, o).Got? {
        ProgressAddrs(d, ParseAddr(d, o).next, count - 1);
        ExtendAddrs(d, t, ParseAddr(d, o).next, count - 1);
      } else if ParseAddr(d + t, o).Got? {
        ProgressAddrs(d + t, ParseAddr(d + t, o).next, count - 1);
      }
    }
  }

  lemma ProgressEntry(d: bytes, o: nat)
    requires o <= |d|
    ensures Progresses(d, o, ParseEntry(d, o))
  {
    ExtendBytes(d, [], o, 2);
    var len := ReadU16(d, o);
    if len.Got? {
      ExtendBytes(d, [], len.next, len.value);
      var peerId := ReadBytes(d, len.next, len.value);
      if peerId.Got? {
        ExtendBytes(d, [], peerId.next, 2);
        var count := ReadU16(d, peerId.next);
        if count.Got? {
          ProgressAddrs(d, count.next, count.value);
        }
      }
    }
  }

  lemma ExtendEntry(d: bytes, t: bytes, o: nat)
    requires o <= |d|
    ensures Extends(d, t, ParseEntry(d, o), ParseEntry(d + t, o))
  {
    hide ParseAddrs;
    ExtendBytes(d, t, o, 2);
    var len := ReadU16(d + t, o);
    if len.Failed? { return; }
    ExtendBytes(d + t, [], len.next, len.value);
    var peerId := ReadBytes(d + t, len.next, len.value);
    if peerId.Got? {
      ExtendBytes(d + t, [], peerId.next, 2);
      var count := ReadU16(d + t, peerId.next);
      if count.Got? {
        ProgressAddrs(d + t, count.next, count.value);
      }
    }
    if len.next > |d| { return; }
    ExtendBytes(d, t, len.next, len.value);
    if peerId.Failed? || peerId.next > |d| { return; }
    ExtendBytes(d, t, peerId.next, 2);
    var count := ReadU16(d + t, peerId.next);
    if count.Got? && count.next <= |d| {
      ExtendAddrs(d, t, count.next, count.value);
      ProgressAddrs(d, count.next, count.value);
    }
  }

  lemma {:induction false} ProgressEntries(d: bytes, o: nat, count: nat)
    requires o <= |d|
    ensures Progresses(d, o, ParseEntries(d, o, count))
    decreases count
  {
    if count > 0 {
      ProgressEntry(d, o);
      if ParseEntry(d, o).Got? {
        ProgressEntries(d, ParseEntry(d, o).next, count - 1);
      }
    }
  }

  lemma {:induction false} ExtendEntries(d: bytes, t: bytes, o: nat, count: nat)
    requires o <= |d|
    ensures Extends(d, t, ParseEntries(d, o, count), ParseEntries(d + t, o, count))
    decreases count
  {
    hide ParseEntry;
    if count > 0 {
      ProgressEntry(d, o);
      ExtendEntry(d, t, o);
      if ParseEntry(d, o).Got? {
        ExtendEntries(d, t, ParseEntry(d, o).next, count - 1);
      } else {
        ProgressEntry(d + t, o);
        if ParseEntry(d + t, o).Got? {
          ProgressEntries(d + t, ParseEntry(d + t, o).next, count - 1);
        }
      }
    }
  }

  // ----- Main theorems -----

  /**
   Canonical acceptance: the decoder answers `entries` on exactly the inputs within the cap that
   start with the printed form of `entries`, and only for tables whose lengths fit their fields.
   */
  lemma DecodeAcceptsExactlyPrintedTables(d: bytes, entries: seq<RoutingEntry>)
    ensures Decoding(d) == Ok(entries) <==>
            |d| <= MAX_DHT_EXPORT_BYTES && TableFits(entries) && Encoding(entries) <= d
  {
    if Decoding(d) == Ok(entries) {
      CanonicalTable(d);
    }
    if |d| <= MAX_DHT_EXPORT_BYTES && TableFits(entries) && Encoding(entries) <= d {
      AcceptTable(d, entries);
    }
  }

  /** The exact round-trip condition, for every table. */
  lemma RoundTripIff(entries: seq<RoutingEntry>)
    ensures Decoding(Encoding(entries)) == Ok(entries) <==>
            EntriesFit(entries) && |Encoding(entries)| <= MAX_DHT_EXPORT_BYTES
  {
    EntriesEncodingSize(entries);
    DecodeAcceptsExactlyPrintedTables(Encoding(entries), entries);
  }

  /** The narrowing cast of a peer-id length really loses a table: its printed form decodes to another one. */
  lemma OversizedPeerIdIsLost()
    ensures var e := RoutingEntry(Zeros(U16_LIMIT), []);
            && |Encoding([e])| <= MAX_DHT_EXPORT_BYTES
            && Decoding(Encoding([e])) == Ok([RoutingEntry([], [])])
  {
    var e, lost := RoutingEntry(Zeros(U16_LIMIT), []), RoutingEntry([], []);
    assert EntriesEncoding([e]) == EntryEncoding(e) && EntriesEncoding([lost]) == EntryEncoding(lost);
    assert EntryEncoding(lost) == [0, 0, 0, 0] <= EntryEncoding(e);
    DecodeAcceptsExactlyPrintedTables(Encoding([e]), [lost]);
  }

  /** On tables that fit, no printed form is a prefix of another one; in particular printing is injective. */
  lemma EncodingIsPrefixFree(a: seq<RoutingEntry>, b: seq<RoutingEntry>)
    requires TableFits(a) && TableFits(b)
    ensures Encoding(a) <= Encoding(b) <==> a == b
  {
    if Encoding(a) <= Encoding(b) {
      AcceptTable(Encoding(b), a);
      AcceptTable(Encoding(b), b);
    }
  }

  /**
   Truncation, exactly: an input within the cap is refused as truncated if and only if it is too
   short to hold the magic, or it is a strict prefix of the printed form of a table that fits.
   */
  lemma TruncatedIff(d: bytes)
    requires |d| <= MAX_DHT_EXPORT_BYTES
    ensures Decoding(d).Err? && Decoding(d).error.Truncated? <==>
            |d| < 4 || exists entries :: TableFits(entries) && d < Encoding(entries)
  {
    if Decoding(d).Err? && Decoding(d).error.Truncated? && |d| >= 4 {
      var entries := CutTable(d);
      assert d == d[0..];
      assert TableFits(entries) && d < Encoding(entries);
    }
    if |d| >= 4 {
      forall entries | TableFits(entries) && d < Encoding(entries)
        ensures Decoding(d).Err? && Decoding(d).error.Truncated?
      {
        StrictPrefixIsTruncated(d, entries);
      }
    }
  }

  lemma StrictPrefixIsTruncated(d: bytes, entries: seq<RoutingEntry>)
    requires 4 <= |d| <= MAX_DHT_EXPORT_BYTES && TableFits(entries) && d < Encoding(entries)
    ensures Decoding(d).Err? && Decoding(d).error.Truncated?
  {
    var all := Encoding(entries);
    AcceptTable(all, entries);
    assert d[..4] == all[..4] && (|d| > 4 ==> d[4] == all[4]);
    if ParseTable(d).Got? {
      CanonicalTable(d);
      AcceptTable(all, ParseTable(d).value);
    } else if |d| >= 9 {
      ProgressEntries(d, 9, U32FromBe(d[5..9]));
    }
  }

  /**
   A truncation report is exact: with more bytes appended, the same offset and need are reported
   if and only if the bytes asked for are still not all there.
   */
  lemma TruncationReportIsExact(d: bytes, t: bytes)
    requires Decoding(d).Err? && Decoding(d).error.Truncated? && |d + t| <= MAX_DHT_EXPORT_BYTES
    ensures var e := Decoding(d).error;
            && e.offset <= |d| < e.offset + e.need
            && (Decoding(d + t) == Err(e) <==> |d + t| < e.offset + e.need)
  {
    ExtendBytes(d, t, 0, 4);
    if |d| >= 4 {
      ExtendBytes(d, t, 4, 1);
      if |d| >= 5 {
        ExtendBytes(d, t, 5, 4);
        if |d| >= 9 {
          ProgressEntries(d, 9, U32FromBe(d[5..9]));
          ExtendEntries(d, t, 9, U32FromBe(d[5..9]));
          assert (d + t)[5..9] == d[5..9];
        }
      }
    }
    if |d + t| >= 9 && ParseTable(d + t).Failed? && ParseTable(d + t).error.Truncated? {
      ProgressEntries(d + t, 9, U32FromBe((d + t)[5..9]));
    }
  }

  /** The three remaining refusals, each by its exact input condition. */
  lemma HeaderRefusedIff(d: bytes)
    ensures Decoding(d) == Err(InputTooLarge(|d|, MAX_DHT_EXPORT_BYTES)) <==> |d| > MAX_DHT_EXPORT_BYTES
    ensures Decoding(d).Err? && Decoding(d).error.BadMagic? <==>
            4 <= |d| <= MAX_DHT_EXPORT_BYTES && d[..4] != MAGIC
    ensures Decoding(d).Err? && Decoding(d).error.UnsupportedVersion? <==>
            5 <= |d| <= MAX_DHT_EXPORT_BYTES && d[..4] == MAGIC && d[4] != VERSION
  {
    if |d| >= 9 {
      ProgressEntries(d, 9, U32FromBe(d[5..9]));
    }
  }

  // ----- Size of the printed form -----

  function AddrsSize(addrs: seq<bytes>): nat {
    if addrs == [] then 0 else 2 + |addrs[0]| + AddrsSize(addrs[1..])
  }

  function EntriesSize(entries: seq<RoutingEntry>): nat {
    if entries == [] then 0
    else 2 + |entries[0].peerId| + 2 + AddrsSize(entries[0].addresses) + EntriesSize(entries[1..])
  }

  lemma AddrsEncodingSize(addrs: seq<bytes>)
    ensures |AddrsEncoding(addrs)| == AddrsSize(addrs)
  {
  }

  lemma {:induction false} EntriesEncodingSize(entries: seq<RoutingEntry>)
    ensures |EntriesEncoding(entries)| == EntriesSize(entries) >= 4 * |entries|
  {
    if entries != [] {
      AddrsEncodingSize(entries[0].addresses);
      EntriesEncodingSize(entries[1..]);
    }
  }

  // ----- Layout, byte by byte -----

  /** Big-endian, read off the bytes. */
  lemma U16Layout(d: bytes, o: nat)
    requires ReadU16(d, o).Got?
    ensures ReadU16(d, o).value == d[o] as int * 0x100 + d[o + 1] as int
  {
    assert d[o..o + 2] == [d[o], d[o + 1]];
  }

  /** An accepted input starts with the literal header, and the next four bytes are the entry count, high byte first. */
  lemma AcceptedHeaderLayout(d: bytes)
    requires Decoding(d).Ok?
    ensures |d| >= 9 && d[..5] == [0x4C, 0x32, 0x44, 0x54, 0x01]
    ensures |Decoding(d).value| ==
            d[5] as int * 0x100_0000 + d[6] as int * 0x1_0000 + d[7] as int * 0x100 + d[8] as int
  {
    CanonicalEntries(d, 9, U32FromBe(d[5..9]));
    assert d[5..9][..2] == [d[5], d[6]] && d[5..9][2..] == [d[7], d[8]];
    assert d[..5] == d[..4] + [d[4]];
  }

  /** A parsed entry: length, peer id, address count, high bytes first. */
  lemma ParsedEntryLayout(d: bytes, o: nat)
    requires o <= |d| && ParseEntry(d, o).Got?
    ensures var e := ParseEntry(d, o).value;
            var n := |e.peerId|;
            && o + 4 + n <= |d|
            && n == d[o] as int * 0x100 + d[o + 1] as int
            && e.peerId == d[o + 2..o + 2 + n]
            && |e.addresses| == d[o + 2 + n] as int * 0x100 + d[o + 3 + n] as int
  {
    U16Layout(d, o);
    var n := ReadU16(d, o).value;
    U16Layout(d, o + 2 + n);
    CanonicalAddrs(d, o + 4 + n, ReadU16(d, o + 2 + n).value);
  }

  lemma ParsedAddrLayout(d: bytes, o: nat)
    requires ParseAddr(d, o).Got?
    ensures var a := ParseAddr(d, o).value;
            && o + 2 + |a| <= |d|
            && |a| == d[o] as int * 0x100 + d[o + 1] as int
            && a == d[o + 2..o + 2 + |a|]
  {
    U16Layout(d, o);
  }

  /** The low 16 bits of `n` stand at `p`, high byte first. */
  predicate U16At(d: bytes, p: nat, n: nat) {
    p + 2 <= |d| && d[p] == n % U16_LIMIT / 0x100 && d[p + 1] == n % 0x100
  }

  lemma AtGivesU16(d: bytes, p: nat, n: nat)
    requires At(d, p, U16ToBe(n))
    ensures U16At(d, p, n)
  {
    assert d[p..p + 2][0] == d[p] && d[p..p + 2][1] == d[p + 1];
  }

  lemma AtShift(s: bytes, t: bytes, o: nat, x: bytes)
    requires At(t, o, x)
    ensures At(s + t, |s| + o, x)
  {
    assert (s + t)[|s| + o..|s| + o + |x|] == t[o..o + |x|];
  }

  lemma AtWithin(d: bytes, o: nat, s: bytes, p: nat, x: bytes)
    requires At(d, o, s) && At(s, p, x)
    ensures At(d, o + p, x)
  {
    assert d[o..o + |s|] == s;
    forall i | 0 <= i < |x| ensures d[o + p + i] == x[i] {
      assert d[o + p + i] == s[p + i] == s[p..p + |x|][i];
    }
  }

  lemma {:induction false} AddrsAt(addrs: seq<bytes>, j: nat)
    requires j < |addrs|
    ensures At(AddrsEncoding(addrs), AddrsSize(addrs[..j]), AddrEncoding(addrs[j]))
  {
    var first, rest := AddrEncoding(addrs[0]), AddrsEncoding(addrs[1..]);
    if j == 0 {
      assert (first + rest)[..|first|] == first;
    } else {
      AddrsAt(addrs[1..], j - 1);
      assert addrs[..j][1..] == addrs[1..][..j - 1];
      AtShift(first, rest, AddrsSize(addrs[1..][..j - 1]), AddrEncoding(addrs[j]));
    }
  }

  lemma {:induction false} EntriesAt(entries: seq<RoutingEntry>, k: nat)
    requires k < |entries|
    ensures At(EntriesEncoding(entries), EntriesSize(entries[..k]), EntryEncoding(entries[k]))
  {
    var first, rest := EntryEncoding(entries[0]), EntriesEncoding(entries[1..]);
    EntryEncodingSize(entries[0]);
    hide EntryEncoding;
    if k == 0 {
      assert (first + rest)[..|first|] == first;
    } else {
      EntriesAt(entries[1..], k - 1);
      assert entries[..k][1..] == entries[1..][..k - 1];
      AtShift(first, rest, EntriesSize(entries[1..][..k - 1]), EntryEncoding(entries[k]));
    }
  }

  lemma EntryEncodingSize(e: RoutingEntry)
    ensures |EntryEncoding(e)| == 4 + |e.peerId| + AddrsSize(e.addresses)
  {
    AddrsEncodingSize(e.addresses);
  }

  /** The position of the k-th entry of a printed table. */
  function EntryPosition(entries: seq<RoutingEntry>, k: nat): nat
    requires k <= |entries|
  {
    9 + EntriesSize(entries[..k])
  }

  /** The printed header, for every table: magic, version, and the low 32 bits of the count, high byte first. */
  lemma PrintedHeaderLayout(entries: seq<RoutingEntry>)
    ensures var d, n := Encoding(entries), |entries| % U32_LIMIT;
            && |d| >= 9 && d[..5] == [0x4C, 0x32, 0x44, 0x54, 0x01]
            && U16At(d, 5, n / U16_LIMIT) && U16At(d, 7, n)
  {
    var d, n := Encoding(entries), |entries| % U32_LIMIT;
    hide EntriesEncoding;
    assert d[..5] == MAGIC + [VERSION];
    U16Length(n / U16_LIMIT);
    U16Length(n % U16_LIMIT);
    hide U16ToBe;
    assert d[5..7] == U16ToBe(n / U16_LIMIT) && d[7..9] == U16ToBe(n % U16_LIMIT);
    AtGivesU16(d, 5, n / U16_LIMIT);
    AtGivesU16(d, 7, n % U16_LIMIT);
  }

  /** The k-th printed entry, for every table: its position and its bytes up to the addresses. */
  lemma PrintedEntryLayout(entries: seq<RoutingEntry>, k: nat)
    requires k < |entries|
    ensures var d, p, e := Encoding(entries), EntryPosition(entries, k), entries[k];
            && U16At(d, p, |e.peerId|)
            && At(d, p + 2, e.peerId)
            && U16At(d, p + 2 + |e.peerId|, |e.addresses|)
            && At(d, p + 4 + |e.peerId|, AddrsEncoding(e.addresses))
  {
    hide Encoding, EntryPosition, EntryEncoding, AddrsEncoding, At, U16At;
    var d, p, e := Encoding(entries), EntryPosition(entries, k), entries[k];
    EntryStandsAt(entries, k);
    PartsOfEntry(d, p, e);
  }

  lemma EntryStandsAt(entries: seq<RoutingEntry>, k: nat)
    requires k < |entries|
    ensures At(Encoding(entries), EntryPosition(entries, k), EntryEncoding(entries[k]))
  {
    EntriesAt(entries, k);
    assert |HeaderEncoding(|entries|)| == 9;
    hide HeaderEncoding, EntriesEncoding, EntryEncoding, EntriesSize;
    AtShift(HeaderEncoding(|entries|), EntriesEncoding(entries), EntriesSize(entries[..k]), EntryEncoding(entries[k]));
  }

  lemma PartsOfEntry(d: bytes, p: nat, e: RoutingEntry)
    requires At(d, p, EntryEncoding(e))
    ensures U16At(d, p, |e.peerId|)
    ensures At(d, p + 2, e.peerId)
    ensures U16At(d, p + 2 + |e.peerId|, |e.addresses|)
    ensures At(d, p + 4 + |e.peerId|, AddrsEncoding(e.addresses))
  {
    hide AddrsEncoding;
    var len, count := U16ToBe(|e.peerId|), U16ToBe(|e.addresses|);
    AtConcat(d, p, len + e.peerId + count, AddrsEncoding(e.addresses));
    AtConcat(d, p, len + e.peerId, count);
    AtConcat(d, p, len, e.peerId);
    hide EntryEncoding;
    AtGivesU16(d, p, |e.peerId|);
    AtGivesU16(d, p + 2 + |e.peerId|, |e.addresses|);
  }

  /** The j-th address of the k-th printed entry, for every table. */
  lemma PrintedAddressLayout(entries: seq<RoutingEntry>, k: nat, j: nat)
    requires k < |entries| && j < |entries[k].addresses|
    ensures var d, e := Encoding(entries), entries[k];
            var q := EntryPosition(entries, k) + 4 + |e.peerId| + AddrsSize(e.addresses[..j]);
            U16At(d, q, |e.addresses[j]|) && At(d, q + 2, e.addresses[j])
  {
    hide Encoding, EntryPosition, AddrsEncoding, AddrEncoding, AddrsSize, At, U16At;
    var d, e, a := Encoding(entries), entries[k], entries[k].addresses[j];
    var p, o := EntryPosition(entries, k) + 4 + |e.peerId|, AddrsSize(e.addresses[..j]);
    PrintedEntryLayout(entries, k);
    AddrsAt(e.addresses, j);
    AtWithin(d, p, AddrsEncoding(e.addresses), o, AddrEncoding(a));
    PartsOfAddress(d, p + o, a);
  }

  lemma PartsOfAddress(d: bytes, p: nat, a: bytes)
    requires At(d, p, AddrEncoding(a))
    ensures U16At(d, p, |a|) && At(d, p + 2, a)
  {
    AtConcat(d, p, U16ToBe(|a|), a);
    AtGivesU16(d, p, |a|);
  }
}
