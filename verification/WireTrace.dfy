/** Well-formed graphics traffic: what a client may rely on in the sequence of PDUs of one connection,
    stated on the sequence alone. */
module WireTrace {
  import opened SessionTypes
  import opened Words

  /** How many frames have been begun. */
  function Starts(wire: seq<Pdu>): (r: nat) {
    if wire == [] then 0
    else Starts(wire[..|wire| - 1]) + if wire[|wire| - 1].StartFrame? then 1 else 0
  }

  predicate Creates(pdu: Pdu, id: nat) {
    pdu.CreateSurface? && pdu.id == id && pdu.ok
  }

  /** Surface `id` was created and then mapped, both accepted, before position `n`. */
  ghost predicate MappedBefore(wire: seq<Pdu>, n: nat, id: nat)
    requires n <= |wire|
  {
    exists j, k :: 0 <= j < k < n && Creates(wire[j], id) && wire[k] == MapSurface(id, true)
  }

  /** One PDU stands in a legal place:
      - the k-th begun frame has id k modulo 2^32, and once accepted it is followed by a surface command;
      - a surface command follows an accepted frame start, addresses a surface mapped before that start,
        and, once accepted, is followed by the end of the same frame;
      - a frame ends only after such a pair; and no surface is ever deleted. */
  ghost predicate InPlace(wire: seq<Pdu>, i: nat)
    requires i < |wire|
  {
    match wire[i]
    case StartFrame(id, ok) =>
      && id == ToU32(Starts(wire[..i + 1]))
      && (ok ==> i + 1 < |wire| && wire[i + 1].SurfaceCommand?)
    case SurfaceCommand(surface, _, _, _, _, _, ok) =>
      && i > 0 && wire[i - 1].StartFrame? && wire[i - 1].ok
      && MappedBefore(wire, i - 1, surface)
      && (ok ==> i + 1 < |wire| && wire[i + 1].EndFrame? && wire[i + 1].frameId == wire[i - 1].frameId)
    case EndFrame(id, _) =>
      && i > 1 && wire[i - 2] == StartFrame(id, true) && wire[i - 1].SurfaceCommand? && wire[i - 1].ok
    case DeleteSurface(_) => false
    case _ => true
  }

  ghost predicate WellFormed(wire: seq<Pdu>) {
    forall i :: 0 <= i < |wire| ==> InPlace(wire, i)
  }

  /** PDUs that are legal anywhere. */
  predicate IsSetup(pdu: Pdu) {
    !pdu.StartFrame? && !pdu.SurfaceCommand? && !pdu.EndFrame? && !pdu.DeleteSurface?
  }

  lemma MappedAfterMore(wire: seq<Pdu>, more: seq<Pdu>, n: nat, id: nat)
    requires n <= |wire| && MappedBefore(wire, n, id)
    ensures MappedBefore(wire + more, n, id)
    ensures MappedBefore(wire + more, |wire + more|, id)
  {
    var j, k :| 0 <= j < k < n && Creates(wire[j], id) && wire[k] == MapSurface(id, true);
    var w := wire + more;
    assert Creates(w[j], id) && w[k] == MapSurface(id, true);
  }

  lemma InPlaceAfterMore(wire: seq<Pdu>, more: seq<Pdu>, i: nat)
    requires i < |wire| && InPlace(wire, i)
    ensures InPlace(wire + more, i)
  {
    assert (wire + more)[..i + 1] == wire[..i + 1];
    if wire[i].SurfaceCommand? {
      MappedAfterMore(wire, more, i - 1, wire[i].surfaceId);
    }
  }

  lemma StartsSnoc(wire: seq<Pdu>, pdu: Pdu)
    ensures Starts(wire + [pdu]) == Starts(wire) + if pdu.StartFrame? then 1 else 0
  {
    assert (wire + [pdu])[..|wire|] == wire;
  }

  lemma {:induction false} StartsOfOthers(wire: seq<Pdu>, more: seq<Pdu>)
    requires forall pdu :: pdu in more ==> !pdu.StartFrame?
    ensures Starts(wire + more) == Starts(wire)
  {
    if more == [] {
      assert wire + more == wire;
    } else {
      var n := |more| - 1;
      StartsOfOthers(wire, more[..n]);
      StartsSnoc(wire + more[..n], more[n]);
      assert more[n] in more;
      assert wire + more == wire + more[..n] + [more[n]];
    }
  }

  lemma OldInPlace(wire: seq<Pdu>, more: seq<Pdu>)
    requires WellFormed(wire)
    ensures forall i :: 0 <= i < |wire| ==> InPlace(wire + more, i)
  {
    forall i | 0 <= i < |wire|
      ensures InPlace(wire + more, i)
    {
      InPlaceAfterMore(wire, more, i);
    }
  }

  lemma {:induction false} AppendSetup(wire: seq<Pdu>, more: seq<Pdu>)
    requires WellFormed(wire) && forall pdu :: pdu in more ==> IsSetup(pdu)
    ensures WellFormed(wire + more) && Starts(wire + more) == Starts(wire)
  {
    OldInPlace(wire, more);
    forall i | |wire| <= i < |wire + more|
      ensures InPlace(wire + more, i)
    {
      assert (wire + more)[i] in more;
    }
    StartsOfOthers(wire, more);
  }

  /** The PDUs of one frame, as far as they were accepted. */
  predicate IsFrame(pdus: seq<Pdu>, id: U32, surface: nat) {
    || pdus == [StartFrame(id, false)]
    || (&& |pdus| == 2 && pdus[0] == StartFrame(id, true) && pdus[1].SurfaceCommand?
        && pdus[1].surfaceId == surface && !pdus[1].ok)
    || (&& |pdus| == 3 && pdus[0] == StartFrame(id, true) && pdus[1].SurfaceCommand?
        && pdus[1].surfaceId == surface && pdus[1].ok && pdus[2].EndFrame? && pdus[2].frameId == id)
  }

  lemma FrameTail(pdus: seq<Pdu>, id: U32, surface: nat)
    requires IsFrame(pdus, id, surface)
    ensures pdus != [] && pdus[0].StartFrame? && forall pdu :: pdu in pdus[1..] ==> !pdu.StartFrame?
  {
  }

  lemma FrameInPlace(w: seq<Pdu>, n: nat, pdus: seq<Pdu>, k: nat, surface: nat)
    requires k < |pdus| && n + |pdus| == |w| && w[n..] == pdus && MappedBefore(w, n, surface)
    requires IsFrame(pdus, ToU32(Starts(w[..n + 1])), surface)
    ensures InPlace(w, n + k)
  {
    assert forall i :: 0 <= i < |pdus| ==> w[n + i] == pdus[i];
  }

  lemma NewInPlace(wire: seq<Pdu>, pdus: seq<Pdu>, surface: nat)
    requires pdus != [] && MappedBefore(wire + pdus, |wire|, surface)
    requires IsFrame(pdus, ToU32(Starts((wire + pdus)[..|wire| + 1])), surface)
    ensures forall i :: |wire| <= i < |wire + pdus| ==> InPlace(wire + pdus, i)
  {
    assert (wire + pdus)[|wire|..] == pdus;
    forall i | |wire| <= i < |wire + pdus|
      ensures InPlace(wire + pdus, i)
    {
      FrameInPlace(wire + pdus, |wire|, pdus, i - |wire|, surface);
    }
  }

  lemma StartsOfFrame(wire: seq<Pdu>, pdus: seq<Pdu>)
    requires pdus != [] && pdus[0].StartFrame? && forall pdu :: pdu in pdus[1..] ==> !pdu.StartFrame?
    ensures Starts((wire + pdus)[..|wire| + 1]) == Starts(wire + pdus) == Starts(wire) + 1
  {
    assert (wire + pdus)[..|wire| + 1] == wire + [pdus[0]];
    StartsSnoc(wire, pdus[0]);
    assert wire + pdus == wire + [pdus[0]] + pdus[1..];
    StartsOfOthers(wire + [pdus[0]], pdus[1..]);
  }

  lemma AppendFrame(wire: seq<Pdu>, pdus: seq<Pdu>, surface: nat)
    requires WellFormed(wire) && MappedBefore(wire, |wire|, surface)
    requires IsFrame(pdus, ToU32(Starts(wire) + 1), surface)
    ensures WellFormed(wire + pdus) && Starts(wire + pdus) == Starts(wire) + 1
    ensures MappedBefore(wire + pdus, |wire + pdus|, surface)
  {
    MappedAfterMore(wire, pdus, |wire|, surface);
    FrameTail(pdus, ToU32(Starts(wire) + 1), surface);
    StartsOfFrame(wire, pdus);
    OldInPlace(wire, pdus);
    NewInPlace(wire, pdus, surface);
  }

  lemma {:induction false} StartsBetween(wire: seq<Pdu>, i: nat, j: nat)
    requires i < j <= |wire|
    requires forall k :: i < k < j ==> !wire[k].StartFrame?
    ensures Starts(wire[..j]) == Starts(wire[..i + 1])
  {
    if i + 1 < j {
      StartsBetween(wire, i, j - 1);
      assert wire[..j] == wire[..j - 1] + [wire[j - 1]];
      StartsSnoc(wire[..j - 1], wire[j - 1]);
    }
  }

  /** In a well-formed trace consecutive frame ids differ by exactly one, modulo 2^32. */
  lemma ConsecutiveFrameIds(wire: seq<Pdu>, i: nat, j: nat)
    requires WellFormed(wire) && i < j < |wire| && wire[i].StartFrame? && wire[j].StartFrame?
    requires forall k :: i < k < j ==> !wire[k].StartFrame?
    ensures wire[j].frameId == ToU32(wire[i].frameId + 1)
  {
    StartsBetween(wire, i, j);
    var n := Starts(wire[..i + 1]);
    assert InPlace(wire, i) && InPlace(wire, j);
    assert wire[..j + 1] == wire[..j] + [wire[j]];
    StartsSnoc(wire[..j], wire[j]);
    ToU32Absorbs(n, 1);
  }
}
