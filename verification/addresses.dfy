/** IP addresses and CIDR prefixes as bit strings, and what it means for a prefix to
    cover an address. */
module Addresses {

  /** An address: its bits, most significant first. Zones are stripped before matching. */
  datatype Addr = V4(bits: seq<bool>) | V6(bits: seq<bool>) {
    predicate Valid() { |bits| == Width() }
    function Width(): nat { if V4? then 32 else 128 }
  }

  function Fill(bit: bool, n: nat): seq<bool> { seq(n, _ => bit) }

  /** The 96 bits that IPv4-mapped IPv6 addresses start with (section 2.5.5.2 of
      RFC 4291). */
  const MAPPED: seq<bool> := Fill(false, 80) + Fill(true, 16)

  predicate Is4In6(a: Addr)
    requires a.Valid()
  {
    a.V6? && a.bits[..96] == MAPPED
  }

  /** A mapped address has 80 clear bits and then 16 set ones. */
  lemma MappedIs(a: Addr)
    requires a.Valid()
    ensures Is4In6(a) <==>
      a.V6? && (forall i :: 0 <= i < 80 ==> !a.bits[i]) && (forall i :: 80 <= i < 96 ==> a.bits[i])
  {
    if a.V6? {
      forall i | 0 <= i < 96 ensures MAPPED[i] == (i >= 80) && a.bits[..96][i] == a.bits[i] {}
    }
  }

  function Unmap(a: Addr): (r: Addr)
    requires a.Valid()
    ensures r.Valid()
  {
    if Is4In6(a) then V4(a.bits[96..]) else a
  }

  /** Unmapping forgets nothing but the family: two addresses of one family that unmap
      to the same address are equal. */
  lemma UnmapKeepsAddress(a: Addr, b: Addr)
    requires a.Valid() && b.Valid() && Unmap(a) == Unmap(b)
    ensures a.V4? == b.V4? ==> a == b
    ensures Unmap(Unmap(a)) == Unmap(a)
  {
    assert a.V6? ==> a.bits == a.bits[..96] + a.bits[96..];
    assert b.V6? ==> b.bits == b.bits[..96] + b.bits[96..];
  }

  datatype Prefix = Prefix(addr: Addr, bits: nat) {
    predicate Valid() { addr.Valid() && bits <= addr.Width() }
  }

  function Mask(a: Addr, bits: nat): (r: Addr)
    requires a.Valid() && bits <= a.Width()
    ensures r.Valid() && r.V4? == a.V4?
  {
    var masked := a.bits[..bits] + Fill(false, a.Width() - bits);
    if a.V4? then V4(masked) else V6(masked)
  }

  lemma SameMask(a: Addr, b: Addr, bits: nat)
    requires a.Valid() && b.Valid() && a.V4? == b.V4? && bits <= a.Width()
    ensures Mask(a, bits) == Mask(b, bits) <==> a.bits[..bits] == b.bits[..bits]
    ensures Mask(Mask(a, bits), bits) == Mask(a, bits)
  {
    assert Mask(a, bits).bits[..bits] == a.bits[..bits];
    assert Mask(b, bits).bits[..bits] == b.bits[..bits];
  }

  /** A mapped prefix must keep all of the mapped part. */
  predicate Acceptable(p: Prefix)
    requires p.Valid()
  {
    Is4In6(p.addr) ==> p.bits >= 96
  }

  /** The prefix covers the address: after unmapping both, they are of one family and
      share the prefix's leading bits. */
  predicate Covers(p: Prefix, a: Addr)
    requires p.Valid() && Acceptable(p) && a.Valid()
  {
    var net, bits := Unmap(p.addr), if Is4In6(p.addr) then p.bits - 96 else p.bits;
    net.V4? == Unmap(a).V4? && net.bits[..bits] == Unmap(a).bits[..bits]
  }

  /** n bits of one address, from a position on, are those of another. */
  predicate SameBits(p: Addr, from: nat, a: Addr, at: nat, n: nat)
    requires from + n <= |p.bits| && at + n <= |a.bits|
  {
    p.bits[from..from + n] == a.bits[at..at + n]
  }

  lemma SameSlices(p: Addr, from: nat, a: Addr, at: nat, n: nat)
    requires from + n <= |p.bits| && at + n <= |a.bits|
    ensures p.bits[from..][..n] == a.bits[at..][..n] <==> SameBits(p, from, a, at, n)
  {
    assert p.bits[from..][..n] == p.bits[from..from + n];
    assert a.bits[at..][..n] == a.bits[at..at + n];
  }

  /** Which addresses a prefix covers, bit by bit: an IPv4 or mapped one the IPv4 addresses
      and the mapped ones that share its bits behind the mapped part, any other one the IPv6
      addresses that are not mapped and share its bits. */
  lemma CoversIs(p: Prefix, a: Addr)
    requires p.Valid() && a.Valid()
    ensures Acceptable(p) <==> !(Is4In6(p.addr) && p.bits < 96)
    ensures Acceptable(p) ==> (Covers(p, a) <==>
      if p.addr.V4? then
        if a.V4? then SameBits(p.addr, 0, a, 0, p.bits) else Is4In6(a) && SameBits(p.addr, 0, a, 96, p.bits)
      else if Is4In6(p.addr) then
        if a.V4? then SameBits(p.addr, 96, a, 0, p.bits - 96)
        else Is4In6(a) && SameBits(p.addr, 96, a, 96, p.bits - 96)
      else a.V6? && !Is4In6(a) && SameBits(p.addr, 0, a, 0, p.bits))
  {
    hide SameBits;
    if Acceptable(p) {
      var from, at := if Is4In6(p.addr) then 96 else 0, if Is4In6(a) then 96 else 0;
      assert p.addr.bits[0..] == p.addr.bits && a.bits[0..] == a.bits;
      if |p.addr.bits| - from == |a.bits| - at {
        SameSlices(p.addr, from, a, at, p.bits - from);
      }
    }
  }

  /** Masking an accepted prefix does not change whether it is a mapped one. */
  lemma MaskKeepsMapped(p: Prefix)
    requires p.Valid() && Acceptable(p)
    ensures Is4In6(Mask(p.addr, p.bits)) == Is4In6(p.addr)
  {
    var net := Mask(p.addr, p.bits);
    if p.addr.V6? {
      if p.bits >= 96 {
        assert net.bits[..96] == p.addr.bits[..96];
      } else {
        assert net.bits[..96][95] == false && MAPPED[95] == true;
      }
    }
  }

  /** The form in which a prefix is stored: masked, then unmapped. */
  function Stored(p: Prefix): (r: Prefix)
    requires p.Valid() && Acceptable(p)
    ensures r.Valid()
  {
    MaskKeepsMapped(p);
    var net := Mask(p.addr, p.bits);
    if Is4In6(net) then Prefix(Mask(Unmap(net), p.bits - 96), p.bits - 96) else Prefix(net, p.bits)
  }

  /** The stored form stands for the prefix: it covers an address exactly if that
      address, masked to the stored length, is the stored address. */
  lemma StoredMeansCovers(p: Prefix, a: Addr)
    requires p.Valid() && Acceptable(p) && a.Valid()
    ensures var s, b := Stored(p), Unmap(a);
      Covers(p, a) <==> s.addr.V4? == b.V4? && s.addr == Mask(b, s.bits)
  {
    MaskKeepsMapped(p);
    var b := Unmap(a);
    if Is4In6(p.addr) {
      var net := Mask(p.addr, p.bits);
      var bits := p.bits - 96;
      assert net.bits[96..][..bits] == p.addr.bits[96..][..bits];
      if b.V4? {
        SameMask(Unmap(net), b, bits);
      }
    } else if b.V4? == p.addr.V4? {
      SameMask(p.addr, b, p.bits);
    }
  }

  /** A rule for one address covers that address in both its forms, and nothing else. */
  lemma HostRuleCoversOnlyHost(host: Addr, a: Addr)
    requires host.Valid() && a.Valid()
    ensures var p := Prefix(host, host.Width());
      Acceptable(p) && (Covers(p, a) <==> Unmap(a) == Unmap(host))
  {
    var h, b := Unmap(host), Unmap(a);
    assert h.bits[..h.Width()] == h.bits;
    assert b.bits[..b.Width()] == b.bits;
  }
}
