/** The capability scan of `gfx_caps_advertise` (src/session/rdp_peer.c:47-118). Versions and flags are
    those of section 2.2.3 of MS-RDPEGFX, operating systems those of section 2.2.7.1.1 of MS-RDPBCGR. */
module CapsNegotiation {
  import opened SessionTypes

  const VERSION_81: nat := 0x0008_0105
  const VERSION_10: nat := 0x000A_0002
  const VERSION_107: nat := 0x000A_0701
  const AVC420_ENABLED: bv32 := 0x10
  const AVC_DISABLED: bv32 := 0x20
  const OS_MACINTOSH := 3
  const OS_IOS := 5
  const OS_OSX := 6

  datatype CapSet = CapSet(version: nat, flags: bv32)

  predicate IsApple(os: nat) {
    os == OS_MACINTOSH || os == OS_OSX || os == OS_IOS
  }

  function Rank(cap: CapSet, apple: bool): (r: int)
    ensures 0 <= r <= 4
  {
    if cap.version >= VERSION_10 then
      if cap.flags & AVC_DISABLED != 0 then 0
      else if apple then 2
      else if cap.version >= VERSION_107 then 4
      else 3
    else if cap.version >= VERSION_81 && cap.flags & AVC420_ENABLED != 0 then 2
    else if cap.version >= VERSION_81 then 1
    else 0
  }

  function ModeOf(rank: int): (r: SendMode) {
    match rank
    case 4 => Avc444v2
    case 3 => Avc444
    case 2 => Avc420
    case 1 => Progressive
    case _ => SurfaceBits
  }

  /** The rank and the index that the scan settles on; (-1, 0) for an empty list. */
  function Best(caps: seq<CapSet>, apple: bool): (r: (int, nat)) {
    if caps == [] then (-1, 0)
    else
      var n := |caps| - 1;
      var best := Best(caps[..n], apple);
      if Rank(caps[n], apple) > best.0 then (Rank(caps[n], apple), n) else best
  }

  function Negotiated(caps: seq<CapSet>, os: nat): (r: SendMode) {
    ModeOf(Best(caps, IsApple(os)).0)
  }

  /** Whether a capability set allows the server to use a mode. */
  predicate Supports(cap: CapSet, mode: SendMode) {
    match mode
    case SurfaceBits => true
    case Progressive => cap.version >= VERSION_81
    case Avc420 =>
      || (cap.version >= VERSION_10 && cap.flags & AVC_DISABLED == 0)
      || (VERSION_81 <= cap.version < VERSION_10 && cap.flags & AVC420_ENABLED != 0)
    case Avc444 => cap.version >= VERSION_10 && cap.flags & AVC_DISABLED == 0
    case Avc444v2 => cap.version >= VERSION_107 && cap.flags & AVC_DISABLED == 0
  }

  method Negotiate(caps: seq<CapSet>, os: nat) returns (bestRank: int, chosen: nat)
    ensures (bestRank, chosen) == Best(caps, IsApple(os))
    ensures caps == [] ==> bestRank == -1 && chosen == 0
    ensures caps != [] ==> chosen < |caps| && bestRank == Rank(caps[chosen], IsApple(os))
    ensures forall i :: 0 <= i < |caps| ==> Rank(caps[i], IsApple(os)) <= bestRank
    ensures forall i :: 0 <= i < chosen ==> Rank(caps[i], IsApple(os)) < bestRank
  {
    var apple := IsApple(os);
    bestRank, chosen := -1, 0;
    var i := 0;
    while i < |caps|
      invariant 0 <= i <= |caps|
      invariant (bestRank, chosen) == Best(caps[..i], apple)
      invariant i == 0 ==> bestRank == -1 && chosen == 0
      invariant i > 0 ==> chosen < i && bestRank == Rank(caps[chosen], apple)
      invariant forall j :: 0 <= j < i ==> Rank(caps[j], apple) <= bestRank
      invariant forall j :: 0 <= j < chosen ==> Rank(caps[j], apple) < bestRank
    {
      assert caps[..i + 1][..i] == caps[..i];
      var rank := Rank(caps[i], apple);
      if rank > bestRank {
        bestRank := rank;
        chosen := i;
      }
      i := i + 1;
    }
    assert caps[..i] == caps;
    if bestRank < 0 && |caps| > 0 {
      assert false;
    }
  }

  lemma {:induction false} BestIsFirstMaximum(caps: seq<CapSet>, apple: bool)
    ensures caps != [] ==> Best(caps, apple).1 < |caps| && Best(caps, apple).0 == Rank(caps[Best(caps, apple).1], apple)
    ensures forall i :: 0 <= i < |caps| ==> Rank(caps[i], apple) <= Best(caps, apple).0
    ensures forall i :: 0 <= i < Best(caps, apple).1 ==> Rank(caps[i], apple) < Best(caps, apple).0
  {
    if caps != [] {
      BestIsFirstMaximum(caps[..|caps| - 1], apple);
    }
  }

  /** The confirmed capability set really offers the mode that was chosen from it. */
  lemma ConfirmedSetSupportsMode(caps: seq<CapSet>, os: nat)
    requires caps != []
    ensures var chosen := Best(caps, IsApple(os)).1; chosen < |caps| && Supports(caps[chosen], Negotiated(caps, os))
  {
    BestIsFirstMaximum(caps, IsApple(os));
  }

  /** Offering more never lowers the mode, wherever the new sets are inserted. */
  lemma MoreSetsNeverLower(caps: seq<CapSet>, more: seq<CapSet>, apple: bool)
    requires multiset(caps) <= multiset(more)
    ensures Best(caps, apple).0 <= Best(more, apple).0
  {
    BestIsFirstMaximum(caps, apple);
    BestIsFirstMaximum(more, apple);
    if caps != [] {
      var top := caps[Best(caps, apple).1];
      assert top in multiset(caps);
      assert top in multiset(more);
      assert top in more;
    } else if more != [] {
      assert Rank(more[0], apple) <= Best(more, apple).0;
    }
  }

  lemma OrderOfSetsIsIrrelevant(caps: seq<CapSet>, permuted: seq<CapSet>, os: nat)
    requires multiset(caps) == multiset(permuted)
    ensures Negotiated(caps, os) == Negotiated(permuted, os)
  {
    MoreSetsNeverLower(caps, permuted, IsApple(os));
    MoreSetsNeverLower(permuted, caps, IsApple(os));
  }

  /** AVC444 in either version is chosen exactly when a non-Apple client offers AVC on version 10 or later. */
  lemma Avc444Exactly(caps: seq<CapSet>, os: nat)
    ensures Negotiated(caps, os) in {Avc444, Avc444v2} <==>
            !IsApple(os) && exists cap :: cap in caps && Supports(cap, Avc444)
  {
    var apple := IsApple(os);
    BestIsFirstMaximum(caps, apple);
    if exists cap :: cap in caps && Supports(cap, Avc444) {
      var cap :| cap in caps && Supports(cap, Avc444);
      var i :| 0 <= i < |caps| && caps[i] == cap;
      assert Rank(caps[i], apple) <= Best(caps, apple).0;
    }
    if Negotiated(caps, os) in {Avc444, Avc444v2} {
      var top := caps[Best(caps, apple).1];
      assert top in caps && Supports(top, Avc444);
    }
  }

  /** Some set offers the mode. */
  ghost predicate Offered(caps: seq<CapSet>, mode: SendMode) {
    exists cap :: cap in caps && Supports(cap, mode)
  }

  /** Some set is of version 8.1, the only one that offers Progressive by itself. */
  ghost predicate Offers81(caps: seq<CapSet>) {
    exists cap :: cap in caps && VERSION_81 <= cap.version < VERSION_10
  }

  /** Every set ranks at least as high as some bound exactly when its offer says so. */
  lemma RankExactly(cap: CapSet, apple: bool)
    ensures Rank(cap, apple) == 4 <==> !apple && Supports(cap, Avc444v2)
    ensures Rank(cap, apple) >= 3 <==> !apple && Supports(cap, Avc444)
    ensures Rank(cap, apple) >= 2 <==> Supports(cap, Avc420)
    ensures Rank(cap, apple) >= 1 <==> Supports(cap, Avc420) || VERSION_81 <= cap.version < VERSION_10
  {
  }

  /** The best rank reaches a bound exactly when some set does. */
  lemma BestReachesExactly(caps: seq<CapSet>, apple: bool, rank: nat)
    ensures Best(caps, apple).0 >= rank <==> exists cap :: cap in caps && Rank(cap, apple) >= rank
  {
    BestIsFirstMaximum(caps, apple);
    if Best(caps, apple).0 >= rank {
      assert caps[Best(caps, apple).1] in caps;
    }
    if cap :| cap in caps && Rank(cap, apple) >= rank {
      var i :| 0 <= i < |caps| && caps[i] == cap;
      assert Rank(caps[i], apple) <= Best(caps, apple).0;
    }
  }

  lemma OffersExactly(caps: seq<CapSet>, apple: bool)
    ensures Best(caps, apple).0 >= 4 <==> !apple && Offered(caps, Avc444v2)
    ensures Best(caps, apple).0 >= 3 <==> !apple && Offered(caps, Avc444)
    ensures Best(caps, apple).0 >= 2 <==> Offered(caps, Avc420)
    ensures Best(caps, apple).0 >= 1 <==> Offered(caps, Avc420) || Offers81(caps)
  {
    forall cap: CapSet
      ensures Rank(cap, apple) >= 4 <==> !apple && Supports(cap, Avc444v2)
      ensures Rank(cap, apple) >= 3 <==> !apple && Supports(cap, Avc444)
      ensures Rank(cap, apple) >= 2 <==> Supports(cap, Avc420)
      ensures Rank(cap, apple) >= 1 <==> Supports(cap, Avc420) || VERSION_81 <= cap.version < VERSION_10
    {
      RankExactly(cap, apple);
    }
    BestReachesExactly(caps, apple, 1);
    BestReachesExactly(caps, apple, 2);
    BestReachesExactly(caps, apple, 3);
    BestReachesExactly(caps, apple, 4);
  }

  /** The mode, by what is offered: AVC444 in the later version before the earlier one, neither to Apple's
      clients; then AVC420; then Progressive, to clients of version 8.1; else bitmaps. */
  lemma ModeExactly(caps: seq<CapSet>, os: nat)
    ensures Negotiated(caps, os) ==
            if !IsApple(os) && Offered(caps, Avc444v2) then Avc444v2
            else if !IsApple(os) && Offered(caps, Avc444) then Avc444
            else if Offered(caps, Avc420) then Avc420
            else if Offers81(caps) then Progressive
            else SurfaceBits
  {
    OffersExactly(caps, IsApple(os));
    BestIsFirstMaximum(caps, IsApple(os));
  }
}
