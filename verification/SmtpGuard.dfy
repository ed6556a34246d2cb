/** Deciding whether an SMTP server's address literal may be connected to. */
module SmtpGuard {
  import opened Prelude
  import opened Texts
  import opened Ipv6Text

  // ----- The block list ---------------------------------------------------------------------------

  /** The first `bits` bits of two addresses agree; an address is a list of words of `width` bits. */
  predicate InSubnet(a: seq<nat>, net: seq<nat>, bits: nat, width: nat)
    requires |a| == |net| && 0 < width && bits / width < |a|
  {
    && a[..bits / width] == net[..bits / width]
    && a[bits / width] / Pow2(width - bits % width) == net[bits / width] / Pow2(width - bits % width)
  }

  predicate BlockedV4(a: Quad) {
    || InSubnet(a, [0, 0, 0, 0], 8, 8)
    || InSubnet(a, [10, 0, 0, 0], 8, 8)
    || InSubnet(a, [100, 64, 0, 0], 10, 8)
    || InSubnet(a, [127, 0, 0, 0], 8, 8)
    || InSubnet(a, [169, 254, 0, 0], 16, 8)
    || InSubnet(a, [172, 16, 0, 0], 12, 8)
    || InSubnet(a, [192, 0, 0, 0], 24, 8)
    || InSubnet(a, [192, 0, 2, 0], 24, 8)
    || InSubnet(a, [192, 88, 99, 0], 24, 8)
    || InSubnet(a, [192, 168, 0, 0], 16, 8)
    || InSubnet(a, [198, 18, 0, 0], 15, 8)
    || InSubnet(a, [198, 51, 100, 0], 24, 8)
    || InSubnet(a, [203, 0, 113, 0], 24, 8)
    || InSubnet(a, [224, 0, 0, 0], 4, 8)
    || InSubnet(a, [240, 0, 0, 0], 4, 8)
    || a == [168, 63, 129, 16]
  }

  predicate BlockedV6(h: Hextets) {
    || h == [0, 0, 0, 0, 0, 0, 0, 0]
    || h == [0, 0, 0, 0, 0, 0, 0, 1]
    || InSubnet(h, [0x100, 0, 0, 0, 0, 0, 0, 0], 64, 16)
    || InSubnet(h, [0x2001, 0xdb8, 0, 0, 0, 0, 0, 0], 32, 16)
    || InSubnet(h, [0xfc00, 0, 0, 0, 0, 0, 0, 0], 7, 16)
    || InSubnet(h, [0xfe80, 0, 0, 0, 0, 0, 0, 0], 10, 16)
    || InSubnet(h, [0xfec0, 0, 0, 0, 0, 0, 0, 0], 10, 16)
    || InSubnet(h, [0xff00, 0, 0, 0, 0, 0, 0, 0], 8, 16)
  }

  function FromHextets(hi: nat, lo: nat): Quad
    requires hi < 0x10000 && lo < 0x10000
  {
    [hi / 256, hi % 256, lo / 256, lo % 256]
  }

  /** The IPv4 address a connection to this IPv6 address may end up at. */
  function EmbeddedV4(h: Hextets): Option<Quad> {
    if h[..5] == [0, 0, 0, 0, 0] && h[5] == 0xffff then Some(FromHextets(h[6], h[7]))
    else if h[..6] == [0, 0, 0, 0, 0, 0] && (h[6] != 0 || h[7] > 1) then Some(FromHextets(h[6], h[7]))
    else if h[0] == 0x64 && h[1] == 0xff9b && h[2..6] == [0, 0, 0, 0] then Some(FromHextets(h[6], h[7]))
    else if h[0] == 0x2002 then Some(FromHextets(h[1], h[2]))
    else None
  }

  // ----- The answer for a text --------------------------------------------------------------------------

  ghost predicate IsIpv4(t: Text) {
    exists q: Quad :: t == QuadText(q)
  }

  ghost predicate IsIpv6(t: Text) {
    exists f :: Legal(f) && t == Render(f)
  }

  /** Anything that is not an address literal is refused too. */
  ghost predicate IsBlocked(ip: Text) {
    var bare := StripBrackets(ip);
    if IsIpv4(bare) then
      var q := ParseQuad(bare);
      q.None? || BlockedV4(q.value)
    else if IsIpv6(bare) then
      match ParseHextets(bare)
      case None => true
      case Some(h) =>
        match EmbeddedV4(h)
        case Some(q) => BlockedV4(q)
        case None =>
          var unzoned := ParseHextets(Split(bare, PERCENT)[0]);
          unzoned.None? || BlockedV6(unzoned.value)
    else true
  }

  /** The answer for an address, however it is written. */
  predicate BlockedAddress(h: Hextets) {
    match EmbeddedV4(h)
    case Some(q) => BlockedV4(q)
    case None => BlockedV6(h)
  }

  lemma LegalHasColon(f: Form)
    requires Legal(f)
    ensures COLON in Render(f)
  {
    if !f.elided {
      var ps := f.head + LastGroup(f.quad);
      assert |ps| >= 2;
      assert Body(f)[|ps[0]|] == COLON;
    } else {
      assert Body(f)[|Join(f.head, COLON)|] == COLON;
    }
    assert Body(f) == Render(f)[..|Body(f)|];
  }

  lemma QuadHasNoColon(q: Quad)
    ensures COLON !in QuadText(q)
  {
    QuadUnits(q);
  }

  lemma UnzonedLegal(f: Form)
    requires Legal(f)
    ensures ParseHextets(Split(Render(f), PERCENT)[0]) == Some(Address(f))
  {
    var g := f.(zone := None);
    BodyUnits(f, PERCENT);
    assert Render(g) == Body(f) + [] == Body(f);
    if f.zone.Some? {
      Regroup(Body(f), [PERCENT], f.zone.value);
      SplitFirst(Body(f), f.zone.value, PERCENT);
    } else {
      SplitPlain(Body(f), PERCENT);
    }
    HextetsOfLegal(g);
  }

  /** All spellings of an IPv6 address get the answer of the address. */
  lemma SpellingIrrelevant(f: Form)
    requires Legal(f)
    ensures IsBlocked(Render(f)) <==> BlockedAddress(Address(f))
  {
    LowerRender(f);
    LegalHasColon(f);
    forall q: Quad
      ensures Render(f) != QuadText(q)
    {
      QuadHasNoColon(q);
    }
    assert IsIpv6(Render(f));
    HextetsOfLegal(f);
    UnzonedLegal(f);
  }

  lemma QuadAnswer(q: Quad)
    ensures IsBlocked(QuadText(q)) <==> BlockedV4(q)
  {
    QuadUnits(q);
    QuadParts(q);
    assert StripBrackets(QuadText(q)) == QuadText(q) by {
      assert forall i :: 0 <= i < |QuadText(q)| ==> QuadText(q)[i] != OPEN && QuadText(q)[i] != CLOSE;
    }
    assert IsIpv4(QuadText(q));
    QuadReadsBack(q);
  }

  // ----- Forms that reach an IPv4 host -------------------------------------------------------------------------

  function Upper(q: Quad): nat {
    q[0] * 256 + q[1]
  }

  function Lower16(q: Quad): nat {
    q[2] * 256 + q[3]
  }

  /** The mapped, compatible, NAT64 or 6to4 form of an IPv4 address; a 6to4 prefix leaves five words free. */
  predicate Embeds(h: Hextets, q: Quad) {
    || h == [0, 0, 0, 0, 0, 0xffff, Upper(q), Lower16(q)]
    || h == [0, 0, 0, 0, 0, 0, Upper(q), Lower16(q)]
    || h == [0x64, 0xff9b, 0, 0, 0, 0, Upper(q), Lower16(q)]
    || (h[0] == 0x2002 && h[1] == Upper(q) && h[2] == Lower16(q))
  }

  lemma HextetsOfQuad(q: Quad)
    ensures Upper(q) < 0x10000 && Lower16(q) < 0x10000 && FromHextets(Upper(q), Lower16(q)) == q
  {
    assert Upper(q) / 256 == q[0] && Upper(q) % 256 == q[1];
    assert Lower16(q) / 256 == q[2] && Lower16(q) % 256 == q[3];
  }

  lemma ZeroPrefixBlocked(q: Quad)
    requires q[0] == 0
    ensures BlockedV4(q)
  {
    assert InSubnet(q, [0, 0, 0, 0], 8, 8);
  }

  /** Wrapping an IPv4 address in IPv6, in any spelling, never changes the answer. */
  lemma WrappingIrrelevant(f: Form, q: Quad)
    requires Legal(f) && Embeds(Address(f), q)
    ensures IsBlocked(Render(f)) <==> IsBlocked(QuadText(q))
  {
    SpellingIrrelevant(f);
    QuadAnswer(q);
    HextetsOfQuad(q);
    EmbeddedFound(Address(f), q);
  }

  lemma CompatibleForm(h: Hextets, q: Quad)
    requires h == [0, 0, 0, 0, 0, 0, Upper(q), Lower16(q)]
    ensures BlockedAddress(h) <==> BlockedV4(q)
  {
    HextetsOfQuad(q);
    assert h[..5] == [0, 0, 0, 0, 0] && h[..6] == [0, 0, 0, 0, 0, 0] && h[5] == 0;
    if h[6] == 0 && h[7] <= 1 {
      ZeroPrefixBlocked(q);
    } else {
      assert EmbeddedV4(h) == Some(q);
    }
  }

  lemma EmbeddedFound(h: Hextets, q: Quad)
    requires Embeds(h, q)
    ensures BlockedAddress(h) <==> BlockedV4(q)
  {
    HextetsOfQuad(q);
    if h == [0, 0, 0, 0, 0, 0, Upper(q), Lower16(q)] {
      CompatibleForm(h, q);
    } else {
      assert h[..5] == [h[0], h[1], h[2], h[3], h[4]] && h[2..6] == [h[2], h[3], h[4], h[5]];
      assert EmbeddedV4(h) == Some(q);
    }
  }

  // ----- What the lists cover ------------------------------------------------------------------------------

  /** The refused IPv4 addresses, range by range. */
  lemma BlockedV4Ranges(a: Quad)
    ensures BlockedV4(a) <==>
              || a[0] == 0 || a[0] == 10 || a[0] == 127 || a[0] >= 224
              || (a[0] == 100 && 64 <= a[1] < 128)
              || (a[0] == 169 && a[1] == 254)
              || (a[0] == 172 && 16 <= a[1] < 32)
              || (a[0] == 192 && a[1] == 0 && (a[2] == 0 || a[2] == 2))
              || (a[0] == 192 && a[1] == 88 && a[2] == 99)
              || (a[0] == 192 && a[1] == 168)
              || (a[0] == 198 && 18 <= a[1] < 20)
              || (a[0] == 198 && a[1] == 51 && a[2] == 100)
              || (a[0] == 203 && a[1] == 0 && a[2] == 113)
              || (a[0] == 168 && a[1] == 63 && a[2] == 129 && a[3] == 16)
  {
    V4Words(a);
    assert Pow2(8) == 256 && Pow2(6) == 64 && Pow2(4) == 16;
    assert Pow2(1) == 2;
  }

  lemma V4Words(a: Quad)
    ensures a[..0] == [] && a[..1] == [a[0]] && a[..2] == [a[0], a[1]] && a[..3] == [a[0], a[1], a[2]]
    ensures a == [a[0], a[1], a[2], a[3]]
  {
  }

  /** The refused IPv6 addresses that embed no IPv4 address. */
  lemma BlockedV6Ranges(h: Hextets)
    ensures BlockedV6(h) <==>
              || (h[..7] == [0, 0, 0, 0, 0, 0, 0] && h[7] <= 1)
              || (h[0] == 0x100 && h[1] == 0 && h[2] == 0 && h[3] == 0)
              || (h[0] == 0x2001 && h[1] == 0xdb8)
              || 0xfc00 <= h[0] < 0xfe00
              || 0xfe80 <= h[0]
  {
    Powers();
    SmallAddresses(h);
    V6Prefix(h);
  }

  lemma Powers()
    ensures Pow2(6) == 64 && Pow2(8) == 256 && Pow2(9) == 512 && Pow2(16) == 65536
  {
    assert Pow2(3) == 8 && Pow2(6) == 64 && Pow2(9) == 512 && Pow2(12) == 4096;
    assert Pow2(14) == 16384;
  }

  lemma SmallAddresses(h: Hextets)
    ensures (h == [0, 0, 0, 0, 0, 0, 0, 0] || h == [0, 0, 0, 0, 0, 0, 0, 1])
            <==> h[..7] == [0, 0, 0, 0, 0, 0, 0] && h[7] <= 1
  {
    assert h == h[..7] + [h[7]];
  }

  lemma V6Prefix(h: Hextets)
    ensures h[..0] == [] && h[..4] == [h[0], h[1], h[2], h[3]] && h[..2] == [h[0], h[1]]
    ensures InSubnet(h, [0x100, 0, 0, 0, 0, 0, 0, 0], 64, 16)
            <==> h[0] == 0x100 && h[1] == 0 && h[2] == 0 && h[3] == 0
  {
    assert [0x100, 0, 0, 0, 0, 0, 0, 0][..4] == [0x100, 0, 0, 0];
    Powers();
  }
}
