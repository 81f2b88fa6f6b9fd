/**
 * Fair seat assignment: a process-wide table of claimed seat ids, in which a
 * seat can be claimed by one caller at a time.
 */
module Servicios {

  /** A 128-bit Guid, as its unsigned integer value. */
  type Guid = x: int | 0 <= x < 0x1_0000_0000_0000_0000_0000_0000_0000_0000

  /** TryAdd on the claim table: succeeds exactly when the seat was not claimed; the seat is claimed afterwards either way. */
  function ClaimSeat(claimed: set<Guid>, s: Guid): (r: (bool, set<Guid>))
    ensures r.0 <==> s !in claimed
    ensures s in r.1
    ensures forall t :: t != s ==> (t in r.1 <==> t in claimed)
  {
    (s !in claimed, claimed + {s})
  }

  /** TryRemove on the claim table: the seat is no longer claimed; other seats keep their status. */
  function ReleaseSeat(claimed: set<Guid>, s: Guid): (r: set<Guid>)
    ensures s !in r
    ensures forall t :: t != s ==> (t in r <==> t in claimed)
    ensures s !in claimed ==> r == claimed
  {
    claimed - {s}
  }

  /** Releasing and claiming again: the claim succeeds. */
  lemma ClaimAfterRelease(claimed: set<Guid>, s: Guid)
    ensures ClaimSeat(ReleaseSeat(claimed, s), s).0
  {
  }

  /** Claiming twice: the second claim fails and changes nothing. */
  lemma ClaimTwice(claimed: set<Guid>, s: Guid)
    ensures var after := ClaimSeat(claimed, s).1;
      !ClaimSeat(after, s).0 && ClaimSeat(after, s).1 == after
  {
  }

  /** One call on the claim table, in a sequence of calls. */
  datatype ClaimCall = ClaimCall(seat: Guid) | ReleaseCall(seat: Guid)

  /** The claim table after one call. */
  function Apply(claimed: set<Guid>, call: ClaimCall): set<Guid>
  {
    match call
    case ClaimCall(s) => ClaimSeat(claimed, s).1
    case ReleaseCall(s) => ReleaseSeat(claimed, s)
  }

  /** The claim table after a sequence of calls, run one after another. */
  function Replay(claimed: set<Guid>, calls: seq<ClaimCall>): set<Guid>
    decreases |calls|
  {
    if calls == [] then claimed
    else Apply(Replay(claimed, calls[..|calls| - 1]), calls[|calls| - 1])
  }

  /** What the i-th call returns when it is a claim: whether its seat was free just before it. */
  function ClaimOutcome(claimed: set<Guid>, calls: seq<ClaimCall>, i: nat): bool
    requires i < |calls| && calls[i].ClaimCall?
  {
    ClaimSeat(Replay(claimed, calls[..i]), calls[i].seat).0
  }

  /** A claimed seat stays claimed through calls that do not release it. */
  lemma {:induction false} StaysClaimed(claimed: set<Guid>, calls: seq<ClaimCall>, s: Guid, a: nat, b: nat)
    requires a <= b <= |calls|
    requires s in Replay(claimed, calls[..a])
    requires forall k :: a <= k < b ==> calls[k] != ReleaseCall(s)
    ensures s in Replay(claimed, calls[..b])
    decreases b - a
  {
    if a < b {
      assert calls[..a + 1][..a] == calls[..a];
      assert s in Replay(claimed, calls[..a + 1]);
      StaysClaimed(claimed, calls, s, a + 1, b);
    }
  }

  /**
   * Mutual exclusion: a claim of a seat fails when an earlier claim of the
   * same seat was made with no release of it in between.
   */
  lemma MutualExclusion(claimed: set<Guid>, calls: seq<ClaimCall>, i: nat, j: nat)
    requires i < j < |calls|
    requires calls[i].ClaimCall? && calls[j] == calls[i]
    requires forall k :: i < k < j ==> calls[k] != ReleaseCall(calls[i].seat)
    ensures !ClaimOutcome(claimed, calls, j)
  {
    var s := calls[i].seat;
    assert calls[..i + 1][..i] == calls[..i];
    assert s in Replay(claimed, calls[..i + 1]);
    StaysClaimed(claimed, calls, s, i + 1, j);
  }

  /** A claim right after a release of the same seat succeeds. */
  lemma ClaimRightAfterRelease(claimed: set<Guid>, calls: seq<ClaimCall>, j: nat)
    requires 0 < j < |calls|
    requires calls[j].ClaimCall? && calls[j - 1] == ReleaseCall(calls[j].seat)
    ensures ClaimOutcome(claimed, calls, j)
  {
  }

  /** Calls on other seats leave the claim status of seat t as it was. */
  lemma {:induction false} OtherSeatsUntouched(claimed: set<Guid>, calls: seq<ClaimCall>, t: Guid)
    requires forall k :: 0 <= k < |calls| ==> calls[k].seat != t
    ensures t in Replay(claimed, calls) <==> t in claimed
    decreases |calls|
  {
    if calls != [] {
      var prefix := calls[..|calls| - 1];
      assert forall k :: 0 <= k < |prefix| ==> prefix[k] == calls[k];
      OtherSeatsUntouched(claimed, prefix, t);
    }
  }

  /**
   * AsignacionJusta: the claimed-seat table. The source keeps it in a static
   * dictionary shared by every instance; one object stands for it here.
   */
  class AsignacionJusta {
    var claimed: set<Guid>
    /** Every call made on the table so far, oldest first. */
    ghost var history: seq<ClaimCall>

    ghost predicate Valid()
      reads this
    {
      claimed == Replay({}, history)
    }

    constructor ()
      ensures Valid()
      ensures claimed == {} && history == []
    {
      claimed := {};
      history := [];
    }

    /** TryClaim: claims the seat and reports whether it was free. */
    method TryClaim(asientoId: Guid) returns (ok: bool)
      requires Valid()
      modifies this
      ensures Valid()
      ensures (ok, claimed) == ClaimSeat(old(claimed), asientoId)
      ensures history == old(history) + [ClaimCall(asientoId)]
      ensures ok == ClaimOutcome({}, history, |history| - 1)
    {
      ok := asientoId !in claimed;
      claimed := claimed + {asientoId};
      history := history + [ClaimCall(asientoId)];
      assert history[..|history| - 1] == old(history);
    }

    /** Release: gives the seat back; releasing an unclaimed seat does nothing. */
    method Release(asientoId: Guid)
      requires Valid()
      modifies this
      ensures Valid()
      ensures claimed == ReleaseSeat(old(claimed), asientoId)
      ensures history == old(history) + [ReleaseCall(asientoId)]
    {
      claimed := claimed - {asientoId};
      history := history + [ReleaseCall(asientoId)];
      assert history[..|history| - 1] == old(history);
    }
  }
}
