/** pkg/proto/rip.go and pkg/vrouter/utils.go: RIP messages as bytes, and tables as RIP messages. */
module RipWire {
  import opened Arith
  import opened RipTable

  type U16 = x: int | 0 <= x < 0x1_0000

  datatype RipEntry = RipEntry(cost: U32, address: U32, mask: U32)

  const REQUEST: U16 := 1
  const RESPONSE: U16 := 2

  datatype RipMsg = RipMsg(command: U16, numEntries: U16, entries: seq<RipEntry>)

  // Big-endian integers.

  function U16Bytes(u: U16): seq<Byte> { [u / 256, u % 256] }

  function BytesU16(b: seq<Byte>): U16 { if |b| < 2 then 0 else (b[0] as int) * 256 + b[1] }

  function U32Bytes(u: U32): seq<Byte> {
    [u / 256 / 256 / 256, u / 256 / 256 % 256, u / 256 % 256, u % 256]
  }

  function BytesU32(b: seq<Byte>): U32 {
    if |b| < 4 then 0 else (((b[0] as int) * 256 + b[1]) * 256 + b[2]) * 256 + b[3]
  }

  lemma U16RoundTrip(u: U16)
    ensures BytesU16(U16Bytes(u)) == u
  {
  }

  lemma U32RoundTrip(u: U32)
    ensures BytesU32(U32Bytes(u)) == u
  {
  }

  // Messages.

  function EntryBytes(e: RipEntry): (b: seq<Byte>)
    ensures |b| == 12
  {
    U32Bytes(e.cost) + U32Bytes(e.address) + U32Bytes(e.mask)
  }

  function BytesEntry(b: seq<Byte>): RipEntry
    requires |b| == 12
  {
    RipEntry(BytesU32(b[0..4]), BytesU32(b[4..8]), BytesU32(b[8..12]))
  }

  lemma EntryRoundTrip(e: RipEntry)
    ensures BytesEntry(EntryBytes(e)) == e
  {
    var b := EntryBytes(e);
    assert b[0..4] == U32Bytes(e.cost) && b[4..8] == U32Bytes(e.address) && b[8..12] == U32Bytes(e.mask);
    U32RoundTrip(e.cost);
    U32RoundTrip(e.address);
    U32RoundTrip(e.mask);
  }

  function EntriesBytes(es: seq<RipEntry>): (b: seq<Byte>)
    ensures |b| == 12 * |es|
  {
    if es == [] then [] else EntryBytes(es[0]) + EntriesBytes(es[1..])
  }

  lemma {:induction false} EntriesAppend(es: seq<RipEntry>, e: RipEntry)
    ensures EntriesBytes(es + [e]) == EntriesBytes(es) + EntryBytes(e)
  {
    if es == [] {
      assert es + [e] == [e];
      assert EntriesBytes([e][1..]) == [];
    } else {
      assert (es + [e])[1..] == es[1..] + [e];
      EntriesAppend(es[1..], e);
    }
  }

  /** The `i`th entry sits 12 bytes after the one before. */
  lemma {:induction false} EntryAt(es: seq<RipEntry>, i: nat)
    requires i < |es|
    ensures EntriesBytes(es)[12 * i..12 * i + 12] == EntryBytes(es[i])
  {
    var b := EntriesBytes(es);
    if i > 0 {
      EntryAt(es[1..], i - 1);
      var rest := EntriesBytes(es[1..]);
      assert b[12..] == rest;
      assert b[12 * i..12 * i + 12] == b[12..][12 * (i - 1)..12 * (i - 1) + 12];
    }
  }

  function Encode(m: RipMsg): seq<Byte> {
    U16Bytes(m.command) + U16Bytes(m.numEntries) + EntriesBytes(m.entries)
  }

  /** A number in network byte order, the most significant byte first. */
  function BigEndian(b: seq<Byte>): nat {
    if b == [] then 0 else 256 * BigEndian(b[..|b| - 1]) + b[|b| - 1]
  }

  lemma BigEndian16(b: seq<Byte>)
    requires |b| == 2
    ensures BigEndian(b) == (b[0] as int) * 256 + b[1]
  {
    assert b[..1] == [b[0]] && b[..1][..0] == [];
    assert BigEndian(b[..1]) == b[0];
  }

  lemma BigEndian32(b: seq<Byte>)
    requires |b| == 4
    ensures BigEndian(b) == (((b[0] as int) * 256 + b[1]) * 256 + b[2]) * 256 + b[3]
  {
    BigEndian16(b[..2]);
    assert b[..3][..2] == b[..2];
    assert BigEndian(b[..3]) == 256 * BigEndian(b[..2]) + b[2];
  }

  lemma U16Order(u: U16)
    ensures BigEndian(U16Bytes(u)) == u
  {
    BigEndian16(U16Bytes(u));
  }

  lemma U32Order(u: U32)
    ensures BigEndian(U32Bytes(u)) == u
  {
    BigEndian32(U32Bytes(u));
  }

  /** Where everything is on the wire, each number in network byte order: command and count in two bytes each, then
      12 bytes an entry, its cost, its address and its mask. */
  lemma Layout(m: RipMsg)
    ensures |Encode(m)| == 4 + 12 * |m.entries|
    ensures BigEndian(Encode(m)[0..2]) == m.command && BigEndian(Encode(m)[2..4]) == m.numEntries
    ensures forall i :: 0 <= i < |m.entries| ==>
              var at, e := 4 + 12 * i, m.entries[i];
              && BigEndian(Encode(m)[at..at + 4]) == e.cost
              && BigEndian(Encode(m)[at + 4..at + 8]) == e.address
              && BigEndian(Encode(m)[at + 8..at + 12]) == e.mask
  {
    var b := Encode(m);
    assert b[0..2] == U16Bytes(m.command) && b[2..4] == U16Bytes(m.numEntries);
    U16Order(m.command);
    U16Order(m.numEntries);
    forall i | 0 <= i < |m.entries|
      ensures var at, e := 4 + 12 * i, m.entries[i];
              && BigEndian(b[at..at + 4]) == e.cost
              && BigEndian(b[at + 4..at + 8]) == e.address
              && BigEndian(b[at + 8..at + 12]) == e.mask
    {
      EntryLayout(m, i);
    }
  }

  lemma EntryLayout(m: RipMsg, i: nat)
    requires i < |m.entries|
    ensures var at, e, b := 4 + 12 * i, m.entries[i], Encode(m);
            && BigEndian(b[at..at + 4]) == e.cost
            && BigEndian(b[at + 4..at + 8]) == e.address
            && BigEndian(b[at + 8..at + 12]) == e.mask
  {
    var at, e, b, body := 4 + 12 * i, m.entries[i], Encode(m), EntriesBytes(m.entries);
    EntryAt(m.entries, i);
    assert b[at..at + 12] == body[12 * i..12 * i + 12] == EntryBytes(e);
    assert b[at..at + 4] == b[at..at + 12][0..4] == U32Bytes(e.cost);
    assert b[at + 4..at + 8] == b[at..at + 12][4..8] == U32Bytes(e.address);
    assert b[at + 8..at + 12] == b[at..at + 12][8..12] == U32Bytes(e.mask);
    U32Order(e.cost);
    U32Order(e.address);
    U32Order(e.mask);
  }

  method Marshal(m: RipMsg) returns (b: seq<Byte>)
    ensures b == Encode(m)
  {
    b := U16Bytes(m.command) + U16Bytes(m.numEntries);
    var head := b;
    for i := 0 to |m.entries|
      invariant b == head + EntriesBytes(m.entries[..i])
    {
      EntriesAppend(m.entries[..i], m.entries[i]);
      assert m.entries[..i + 1] == m.entries[..i] + [m.entries[i]];
      b := b + EntryBytes(m.entries[i]);
    }
    assert m.entries[..|m.entries|] == m.entries;
  }

  /** `OutOfBounds`: slicing past the end is a run-time panic. */
  datatype Parse = Parsed(msg: RipMsg) | OutOfBounds

  function Decode(b: seq<Byte>): Parse {
    if |b| < 4 then OutOfBounds
    else
      var n := BytesU16(b[2..4]);
      if |b| < 4 + 12 * n then OutOfBounds
      else Parsed(RipMsg(BytesU16(b[0..2]), n, seq(n, i requires 0 <= i < n => BytesEntry(b[4 + 12 * i..4 + 12 * i + 12]))))
  }

  /** `Unmarshal`; `b` is what lies within the slice's capacity. */
  method Unmarshal(b: seq<Byte>) returns (r: Parse)
    ensures r == Decode(b)
  {
    if |b| < 2 { return OutOfBounds; }
    var command := BytesU16(b[0..2]);
    if |b| < 4 { return OutOfBounds; }
    var numEntries := BytesU16(b[2..4]);
    var entries: seq<RipEntry> := [];
    for i := 0 to numEntries
      invariant |entries| == i && 4 + 12 * i <= |b|
      invariant forall j :: 0 <= j < i ==> entries[j] == BytesEntry(b[4 + 12 * j..4 + 12 * j + 12])
    {
      if |b| < 4 + (i + 1) * 12 { return OutOfBounds; }
      entries := entries + [BytesEntry(b[4 + i * 12..4 + (i + 1) * 12])];
    }
    r := Parsed(RipMsg(command, numEntries, entries));
  }

  /** What comes back of a message, whatever bytes follow it: its first `numEntries` entries if it has so
      many; the whole of it exactly if the count is right; a panic exactly if the count asks for more bytes
      than there are. */
  lemma MessageRoundTrip(m: RipMsg, pad: seq<Byte>)
    ensures m.numEntries <= |m.entries| ==> Decode(Encode(m) + pad) == Parsed(m.(entries := m.entries[..m.numEntries]))
    ensures Decode(Encode(m) + pad) == Parsed(m) <==> m.numEntries == |m.entries|
    ensures Decode(Encode(m) + pad) == OutOfBounds <==> 12 * m.numEntries > 12 * |m.entries| + |pad|
  {
    HeadRead(m, pad);
    if m.numEntries <= |m.entries| {
      forall i | 0 <= i < m.numEntries
        ensures BytesEntry((Encode(m) + pad)[4 + 12 * i..4 + 12 * i + 12]) == m.entries[i]
      {
        EntryRead(m, pad, i);
      }
    }
  }

  lemma HeadRead(m: RipMsg, pad: seq<Byte>)
    ensures var b := Encode(m) + pad;
            |b| >= 4 && BytesU16(b[0..2]) == m.command && BytesU16(b[2..4]) == m.numEntries
  {
    var b := Encode(m) + pad;
    assert b[0..2] == U16Bytes(m.command) && b[2..4] == U16Bytes(m.numEntries);
    U16RoundTrip(m.command);
    U16RoundTrip(m.numEntries);
  }

  lemma EntryRead(m: RipMsg, pad: seq<Byte>, i: nat)
    requires i < |m.entries|
    ensures BytesEntry((Encode(m) + pad)[4 + 12 * i..4 + 12 * i + 12]) == m.entries[i]
  {
    var body := EntriesBytes(m.entries);
    assert (Encode(m) + pad)[4 + 12 * i..4 + 12 * i + 12] == body[12 * i..12 * i + 12];
    EntryAt(m.entries, i);
    EntryRoundTrip(m.entries[i]);
  }

  // What the IP layer makes of the bytes: the sender cuts them to fit a packet, and the receiver hands on
  // the rest of a buffer of zeros of that size, however short the message.

  const PAYLOAD: nat := 1400 - 20

  const MAX_ENTRIES: nat := 114

  function Carried(b: seq<Byte>): (r: seq<Byte>)
    ensures |r| == PAYLOAD
  {
    if |b| >= PAYLOAD then b[..PAYLOAD] else b + seq(PAYLOAD - |b|, i => 0)
  }

  /** The first `n` entries, made up with zeros. */
  function MadeUp(es: seq<RipEntry>, n: nat): seq<RipEntry> {
    seq(n, i requires 0 <= i < n => if i < |es| then es[i] else RipEntry(0, 0, 0))
  }

  lemma CarriedEntry(m: RipMsg, i: nat)
    requires i < MAX_ENTRIES
    ensures BytesEntry(Carried(Encode(m))[4 + 12 * i..4 + 12 * i + 12]) == if i < |m.entries| then m.entries[i] else RipEntry(0, 0, 0)
  {
    var b, r := Encode(m), Carried(Encode(m));
    if i < |m.entries| {
      EntryRead(m, [], i);
      assert b + [] == b;
      assert r[4 + 12 * i..4 + 12 * i + 12] == b[4 + 12 * i..4 + 12 * i + 12];
    } else {
      var z := r[4 + 12 * i..4 + 12 * i + 12];
      assert |b| == 4 + 12 * |m.entries|;
      assert forall j :: 0 <= j < 12 ==> z[j] == 0;
    }
  }

  /** A message as the receiver has it, exactly: it panics when the count says more than 114, which is all a
      packet holds; otherwise it has as many entries as the count says, with zeros for those that were cut. */
  lemma MessageOverIp(m: RipMsg)
    ensures Decode(Carried(Encode(m)))
            == if m.numEntries > 114 then OutOfBounds else Parsed(m.(entries := MadeUp(m.entries, m.numEntries)))
  {
    var b := Encode(m);
    HeadRead(m, []);
    assert b + [] == b;
    var r := Carried(b);
    assert r[0..2] == b[0..2] && r[2..4] == b[2..4];
    if m.numEntries <= MAX_ENTRIES {
      forall i | 0 <= i < m.numEntries
        ensures BytesEntry(r[4 + 12 * i..4 + 12 * i + 12]) == MadeUp(m.entries, m.numEntries)[i]
      {
        CarriedEntry(m, i);
      }
    }
  }

  /** Whatever arrives in a packet, the receiver panics if and only if it counts more than 114 entries. */
  lemma PanicsIff(b: seq<Byte>)
    requires |b| == 1380
    ensures Decode(b) == OutOfBounds <==> BytesU16(b[2..4]) > 114
  {
  }

  // Masks.

  lemma {:induction false} Pow2Within(n: nat)
    requires n < 32
    ensures 2 * Pow2(n) <= TWO32
    decreases 32 - n
  {
    if n < 31 {
      Pow2Within(n + 1);
    } else {
      assert Pow2(31) == 0x8000_0000 by { Pow2Of31(); }
    }
  }

  lemma Pow2Of31()
    ensures Pow2(31) == 0x8000_0000
  {
    assert Pow2(8) == 256;
    assert Pow2(16) == 0x1_0000;
    assert Pow2(24) == 0x100_0000;
  }

  /** `prefixLenToIPMask`: a shift by 32 bits or more gives 0. */
  function PrefixLenToMask(bits: Bits): U32 {
    if bits <= 0 then 0
    else
      Pow2Within(32 - bits);
      Sub(TWO32 - 1, Sub(Pow2(32 - bits), 1))
  }

  /** The largest `k` with `2^k <= x`: what the floating-point logarithm gives, cut to an integer. */
  function FloorLog2(x: nat): (k: nat)
    requires x > 0
    ensures Pow2(k) <= x < 2 * Pow2(k)
  {
    if x == 1 then 0 else 1 + FloorLog2(x / 2)
  }

  lemma {:induction false} Pow2Grows(i: nat, j: nat)
    requires i < j
    ensures 2 * Pow2(i) <= Pow2(j)
    decreases j - i
  {
    if i + 1 < j {
      Pow2Grows(i + 1, j);
    }
  }

  lemma LogOfPow2(n: nat)
    ensures FloorLog2(Pow2(n)) == n
  {
    var k := FloorLog2(Pow2(n));
    if k < n {
      Pow2Grows(k, n);
    } else if n < k {
      Pow2Grows(n, k);
    }
  }

  /** `ipMaskToPrefixLen`, as `netip.PrefixFrom` takes it: the logarithm of 0 is out of every range. */
  function MaskToPrefixLen(mask: U32): Bits {
    var hosts := Add(Sub(TWO32 - 1, mask), 1);
    if hosts == 0 then -1
    else
      LogWithin(hosts);
      32 - FloorLog2(hosts)
  }

  lemma LogWithin(x: nat)
    requires 0 < x < TWO32
    ensures FloorLog2(x) < 32
  {
    if FloorLog2(x) > 31 {
      Pow2Grows(31, FloorLog2(x));
      Pow2Of31();
    }
  }

  /** The length survives the trip through the mask exactly if it is not 0. */
  lemma MaskRoundTripIff(bits: Bits)
    ensures MaskToPrefixLen(PrefixLenToMask(bits)) == bits <==> bits != 0
  {
    if bits > 0 {
      Pow2Within(32 - bits);
      assert Add(Sub(TWO32 - 1, PrefixLenToMask(bits)), 1) == Pow2(32 - bits);
      LogOfPow2(32 - bits);
    }
  }

  // Tables as messages.

  function ToWire(e: Entry, dest: Addr): RipEntry {
    var c := ToClaim(e, dest);
    RipEntry(c.cost, c.prefix.addr, PrefixLenToMask(c.prefix.bits))
  }

  function FromWire(r: RipEntry, proposer: Addr): Entry {
    FromClaim(Claim(Prefix(r.address, MaskToPrefixLen(r.mask)), r.cost), proposer)
  }

  method RoutingEntriesToRipEntries(entries: seq<Entry>, dest: Addr) returns (ripEntries: seq<RipEntry>)
    ensures |ripEntries| == |entries|
    ensures forall i :: 0 <= i < |entries| ==> ripEntries[i] == ToWire(entries[i], dest)
  {
    ripEntries := [];
    for i := 0 to |entries|
      invariant |ripEntries| == i
      invariant forall j :: 0 <= j < i ==> ripEntries[j] == ToWire(entries[j], dest)
    {
      var entry := entries[i];
      var cost := entry.cost;
      if entry.nextHop == Some(dest) { cost := INFINITY; }
      ripEntries := ripEntries + [RipEntry(cost, entry.prefix.addr, PrefixLenToMask(entry.prefix.bits))];
    }
  }

  method RipEntriesToRoutingEntries(entries: seq<RipEntry>, proposer: Addr) returns (routingEntries: seq<Entry>)
    ensures |routingEntries| == |entries|
    ensures forall i :: 0 <= i < |entries| ==> routingEntries[i] == FromWire(entries[i], proposer)
  {
    routingEntries := [];
    for i := 0 to |entries|
      invariant |routingEntries| == i
      invariant forall j :: 0 <= j < i ==> routingEntries[j] == FromWire(entries[j], proposer)
    {
      var r := entries[i];
      var prefix := Prefix(r.address, MaskToPrefixLen(r.mask));
      routingEntries := routingEntries + [Entry(Rip, prefix, Some(proposer), "", Min(Add(r.cost, 1), INFINITY), 0)];
    }
  }

  /** `createRipResponse`: the count is cut to 16 bits. */
  function Response(es: seq<Entry>, dest: Addr): RipMsg {
    RipMsg(RESPONSE, |es| % 0x1_0000, seq(|es|, i requires 0 <= i < |es| => ToWire(es[i], dest)))
  }

  method CreateRipResponse(entries: seq<Entry>, dest: Addr) returns (b: seq<Byte>)
    ensures b == Encode(Response(entries, dest))
  {
    var ripEntries := RoutingEntriesToRipEntries(entries, dest);
    assert ripEntries == Response(entries, dest).entries;
    b := Marshal(RipMsg(RESPONSE, |entries| % 0x1_0000, ripEntries));
  }

  /** The routes a receiver makes of the bytes of a response. */
  function Received(b: seq<Byte>, proposer: Addr): Option<seq<Entry>> {
    match Decode(b)
    case OutOfBounds => None
    case Parsed(m) => Some(Read(m.entries, proposer))
  }

  function Read(rs: seq<RipEntry>, proposer: Addr): seq<Entry> {
    seq(|rs|, i requires 0 <= i < |rs| => FromWire(rs[i], proposer))
  }

  /** One line: the same prefix, one hop longer, infinitely long if it goes back where it came from,
      if and only if the prefix does not have length 0. */
  lemma LineOverTheWire(e: Entry, dest: Addr, proposer: Addr)
    requires e.cost < TWO32 - 1
    ensures FromWire(ToWire(e, dest), proposer).cost == if e.nextHop == Some(dest) then 16 else Min(e.cost + 1, 16)
    ensures FromWire(ToWire(e, dest), proposer) == FromClaim(ToClaim(e, dest), proposer) <==> e.prefix.bits != 0
  {
    MaskRoundTripIff(e.prefix.bits);
  }

  /** A table through the codec: convert, marshal, unmarshal, convert back. For up to 65535 entries with
      prefixes of length 1 to 32, whatever bytes follow, the receiver has the same prefixes, in order, each
      with cost 16 if its next hop was the receiver and min(cost + 1, 16) otherwise. */
  lemma TableOverTheWire(es: seq<Entry>, dest: Addr, proposer: Addr, pad: seq<Byte>)
    requires |es| <= 65535 && forall i :: 0 <= i < |es| ==> es[i].prefix.bits != 0 && es[i].cost <= 16
    ensures Received(Encode(Response(es, dest)) + pad, proposer) == Some(FromClaims(ToClaims(es, dest), proposer))
    ensures forall i :: 0 <= i < |es| ==>
              FromClaims(ToClaims(es, dest), proposer)[i]
              == Entry(Rip, es[i].prefix, Some(proposer), "", if es[i].nextHop == Some(dest) then 16 else Min(es[i].cost + 1, 16), 0)
  {
    MessageRoundTrip(Response(es, dest), pad);
    ReadAsClaims(es, dest, proposer);
  }

  lemma ReadAsClaims(es: seq<Entry>, dest: Addr, proposer: Addr)
    requires forall i :: 0 <= i < |es| ==> es[i].prefix.bits != 0 && es[i].cost <= INFINITY
    ensures Read(Response(es, dest).entries, proposer) == FromClaims(ToClaims(es, dest), proposer)
  {
    var got, claims := Read(Response(es, dest).entries, proposer), FromClaims(ToClaims(es, dest), proposer);
    forall i | 0 <= i < |es| ensures got[i] == claims[i] {
      LineOverTheWire(es[i], dest, proposer);
    }
    assert got == claims;
  }

  /** A longer list loses a multiple of 65536 entries already in the codec. */
  lemma LongTableCut(es: seq<Entry>, dest: Addr, proposer: Addr, pad: seq<Byte>)
    ensures var got := Received(Encode(Response(es, dest)) + pad, proposer);
            got.Some? && |got.value| == |es| % 0x1_0000 && (|got.value| == |es| <==> |es| <= 65535)
  {
    MessageRoundTrip(Response(es, dest), pad);
  }

  /** A table over IP, exactly: the receiver panics if and only if the number of entries, cut to 16 bits, is
      over 114; and what it gets otherwise is that many of them, all if and only if there are at most 114. */
  lemma TableOverIp(es: seq<Entry>, dest: Addr, proposer: Addr)
    requires forall i :: 0 <= i < |es| ==> es[i].prefix.bits != 0 && es[i].cost <= INFINITY
    ensures var n, got := |es| % 0x1_0000, Received(Carried(Encode(Response(es, dest))), proposer);
            && (got == None <==> n > 114)
            && (got.Some? ==> got.value == FromClaims(ToClaims(es[..n], dest), proposer))
            && (got == Some(FromClaims(ToClaims(es, dest), proposer)) <==> |es| <= 114)
  {
    var n, m := |es| % 0x1_0000, Response(es, dest);
    MessageOverIp(m);
    if n <= MAX_ENTRIES {
      assert MadeUp(m.entries, n) == Response(es[..n], dest).entries;
      ReadAsClaims(es[..n], dest, proposer);
    }
    if |es| <= MAX_ENTRIES {
      assert es[..n] == es;
    } else {
      assert |FromClaims(ToClaims(es, dest), proposer)| == |es|;
    }
  }

  /** A cost of 2^32 - 1, which no router sends, would come back as the best there is. */
  lemma CostWraps(address: U32, mask: U32, proposer: Addr, cost: U32)
    ensures FromWire(RipEntry(cost, address, mask), proposer).cost == Min(cost + 1, 16) <==> cost != TWO32 - 1
    ensures FromWire(RipEntry(TWO32 - 1, address, mask), proposer).cost == 0
  {
  }

  /** `ripRecvHandler`: what a packet from `src` leads to. `Ignored` covers the messages logged and
      dropped; `Panics` a count of more entries than there are bytes for. */
  datatype Handled = Updated(out: seq<Message>) | Answered(reply: seq<Byte>) | Ignored | Panics

  /** The triggered update: the routes that learning `es` altered, in order, are told to every neighbour, as the
      table has them now, among them every route that is different in the end; if none was, nothing is sent. */
  ghost predicate Announces(out: seq<Message>, was: Table, t: Table, es: seq<Entry>, now: nat, nbrs: seq<Addr>) {
    var altered := Altered(was, es, now);
    && |out| == (if altered == [] then 0 else |nbrs|)
    && (forall i :: 0 <= i < |out| ==>
          && out[i].dest == nbrs[i] && |out[i].claims| == |altered|
          && forall j :: 0 <= j < |altered| ==> altered[j] in t && out[i].claims[j] == ToClaim(t[altered[j]], nbrs[i]))
    && forall p :: Route(t, p) != Route(was, p) ==> p in altered
  }

  /** The bytes of a request: command 1, no entries. */
  method SendRipRequest(router: VRouter) returns (out: seq<(Addr, seq<Byte>)>)
    ensures |out| == |router.ripNeighbors|
    ensures forall i :: 0 <= i < |out| ==> out[i] == (router.ripNeighbors[i], [0, 1, 0, 0])
  {
    var request := Marshal(RipMsg(REQUEST, 0, []));
    assert EntriesBytes([]) == [];
    assert request == [0, 1, 0, 0];
    out := [];
    for i := 0 to |router.ripNeighbors|
      invariant |out| == i
      invariant forall j :: 0 <= j < i ==> out[j] == (router.ripNeighbors[j], request)
    {
      out := out + [(router.ripNeighbors[i], request)];
    }
  }

  /** What the handler makes of a payload, by its bytes: a count that the bytes cannot hold panics; 0, 2 leads to
      an update, 0, 1, 0, 0 to an answer, and all else to nothing. */
  ghost predicate Sorted(h: Handled, payload: seq<Byte>) {
    && (h.Panics? <==> |payload| < 4 || |payload| < 4 + 12 * BigEndian(payload[2..4]))
    && (h.Updated? <==> !h.Panics? && payload[0..2] == [0, 2])
    && (h.Answered? <==> !h.Panics? && payload[0..4] == [0, 1, 0, 0])
    && (h.Answered? ==> |h.reply| >= 4 && h.reply[0..2] == [0, 2])
  }

  lemma SortedByBytes(h: Handled, payload: seq<Byte>)
    requires h.Panics? <==> Decode(payload) == OutOfBounds
    requires Decode(payload).Parsed? ==>
               var m := Decode(payload).msg;
               (h.Updated? <==> m.command == RESPONSE) && (h.Answered? <==> m.command == REQUEST && m.numEntries == 0)
    requires h.Answered? ==> exists es, src :: h.reply == Encode(Response(es, src))
    ensures Sorted(h, payload)
  {
    if |payload| >= 4 {
      BigEndian16(payload[2..4]);
      assert payload[0..4] == payload[0..2] + payload[2..4];
    }
  }

  method RipRecvHandler(router: VRouter, payload: seq<Byte>, src: Addr, now: nat) returns (h: Handled)
    requires Keyed(router.routingTable)
    modifies router
    ensures Keyed(router.routingTable) && Sorted(h, payload)
    ensures match Decode(payload)
            case OutOfBounds => h == Panics && router.routingTable == old(router.routingTable)
            case Parsed(m) =>
              && (h.Updated? <==> m.command == RESPONSE)
              && (h.Answered? <==> m.command == REQUEST && m.numEntries == 0)
              && (h.Updated? ==>
                    && router.routingTable == LearnAll(old(router.routingTable), Received(payload, src).value, now)
                    && Announces(h.out, old(router.routingTable), router.routingTable, Received(payload, src).value, now, router.ripNeighbors))
              && (!h.Updated? ==> router.routingTable == old(router.routingTable))
              && (h.Answered? ==> exists es :: Lists(es, router.routingTable) && h.reply == Encode(Response(es, src)))
  {
    var parse := Unmarshal(payload);
    h := Handle(router, parse, src, now);
    SortedByBytes(h, payload);
  }

  method Handle(router: VRouter, parse: Parse, src: Addr, now: nat) returns (h: Handled)
    requires Keyed(router.routingTable)
    modifies router
    ensures Keyed(router.routingTable) && (h.Panics? <==> parse == OutOfBounds)
    ensures !h.Updated? ==> router.routingTable == old(router.routingTable)
    ensures parse.Parsed? ==>
              var es := Read(parse.msg.entries, src);
              && (h.Updated? <==> parse.msg.command == RESPONSE)
              && (h.Answered? <==> parse.msg.command == REQUEST && parse.msg.numEntries == 0)
              && (h.Updated? ==>
                    && router.routingTable == LearnAll(old(router.routingTable), es, now)
                    && Announces(h.out, old(router.routingTable), router.routingTable, es, now, router.ripNeighbors))
              && (h.Answered? ==> exists es :: Lists(es, router.routingTable) && h.reply == Encode(Response(es, src)))
  {
    if parse == OutOfBounds { return Panics; }
    var msg := parse.msg;
    if msg.command == REQUEST {
      if msg.numEntries != 0 { return Ignored; }
      var all := router.GetAllEntries();
      var reply := CreateRipResponse(all, src);
      return Answered(reply);
    } else if msg.command == RESPONSE {
      var entries := RipEntriesToRoutingEntries(msg.entries, src);
      assert entries == Read(msg.entries, src);
      var out := Update(router, entries, now);
      return Updated(out);
    }
    return Ignored;
  }

  method Update(router: VRouter, entries: seq<Entry>, now: nat) returns (out: seq<Message>)
    requires Keyed(router.routingTable)
    modifies router
    ensures Keyed(router.routingTable) && router.routingTable == LearnAll(old(router.routingTable), entries, now)
    ensures Announces(out, old(router.routingTable), router.routingTable, entries, now, router.ripNeighbors)
  {
    var updated;
    out, updated := router.UpdateRoutingTable(entries, now);
  }
}
