/** The client's estimate of the offset between its clock and the server's. */
module ClientClock {

  const UINT32S: int := 0x1_0000_0000

  /** A ping sent at `sent`, stamped by the server at `server`, answered at `now`. */
  datatype Sample = Sample(sent: int, server: int, now: int)

  datatype Sync = Sync(rtt2Us: int, have: bool, offsetUs: int)

  const START: Sync := Sync(UINT32S - 1, false, 0)

  /** Division that rounds toward zero. */
  function HalfOf(x: int): int {
    if x >= 0 then x / 2 else -(-x / 2)
  }

  function Half(s: Sample): int {
    HalfOf(s.now - s.sent)
  }

  function Estimate(s: Sample): int {
    s.server + Half(s) - s.now
  }

  /** A shorter round trip than any before replaces the estimate; the stored one has 32 bits. */
  function SyncStep(c: Sync, s: Sample): Sync {
    if Half(s) < c.rtt2Us then Sync(Half(s) % UINT32S, true, Estimate(s)) else c
  }

  function SyncAll(samples: seq<Sample>): Sync {
    if samples == [] then START else SyncStep(SyncAll(samples[..|samples| - 1]), samples[|samples| - 1])
  }

  /** The round trip is not negative and the server stamps within it, its clock being `offset` ahead. */
  predicate Honest(s: Sample, offset: int) {
    s.sent <= s.now && s.sent + offset <= s.server <= s.now + offset
  }

  /** Sample `i` is the first with the smallest half round trip. */
  predicate Best(samples: seq<Sample>, i: nat) {
    && i < |samples|
    && (forall j :: 0 <= j < i ==> Half(samples[i]) < Half(samples[j]))
    && (forall j :: i < j < |samples| ==> Half(samples[i]) <= Half(samples[j]))
  }

  lemma EstimateError(s: Sample, offset: int)
    requires Honest(s, offset)
    ensures -Half(s) - 1 <= Estimate(s) - offset <= Half(s)
  {
  }

  lemma HalfNonNegative(s: Sample)
    requires s.sent <= s.now
    ensures 0 <= Half(s)
  {
  }

  lemma BestPush(samples: seq<Sample>, s: Sample, i: nat)
    requires Best(samples, i)
    ensures Half(samples[i]) <= Half(s) ==> Best(samples + [s], i)
    ensures Half(s) < Half(samples[i]) ==> Best(samples + [s], |samples|)
  {
    hide Half;
    var all := samples + [s];
    assert forall j :: 0 <= j < |samples| ==> all[j] == samples[j];
  }

  /** What the state says about the samples it comes from. */
  ghost predicate Explained(samples: seq<Sample>, c: Sync, i: nat) {
    if c.have
    then Best(samples, i) && c == Sync(Half(samples[i]), true, Estimate(samples[i])) && 0 <= c.rtt2Us < UINT32S - 1
    else c == START && forall j :: 0 <= j < |samples| ==> Half(samples[j]) >= UINT32S - 1
  }

  lemma StepExplained(samples: seq<Sample>, c: Sync, i: nat, s: Sample)
    requires Explained(samples, c, i) && 0 <= Half(s)
    ensures Explained(samples + [s], SyncStep(c, s), if Half(s) < c.rtt2Us then |samples| else i)
  {
    hide Half, Estimate, Best;
    var all := samples + [s];
    assert forall j :: 0 <= j < |samples| ==> all[j] == samples[j];
    if c.have {
      assert i < |samples| by { BestIndex(samples, i); }
      BestPush(samples, s, i);
    } else if Half(s) < c.rtt2Us {
      BestFirst(samples, s);
    }
  }

  lemma BestIndex(samples: seq<Sample>, i: nat)
    requires Best(samples, i)
    ensures i < |samples|
  {
  }

  lemma BestFirst(samples: seq<Sample>, s: Sample)
    requires forall j :: 0 <= j < |samples| ==> Half(s) < Half(samples[j])
    ensures Best(samples + [s], |samples|)
  {
    hide Half;
  }

  lemma {:induction false} BestSoFar(samples: seq<Sample>, offset: int) returns (i: nat)
    requires forall j :: 0 <= j < |samples| ==> Honest(samples[j], offset)
    ensures Explained(samples, SyncAll(samples), i)
  {
    i := 0;
    if samples != [] {
      var n := |samples| - 1;
      var before, s := samples[..n], samples[n];
      var k := BestSoFar(before, offset);
      HalfNonNegative(s);
      StepExplained(before, SyncAll(before), k, s);
      assert before + [s] == samples;
      i := if Half(s) < SyncAll(before).rtt2Us then n else k;
    }
  }

  /**
   * After any samples with honest stamps and no drift, the estimate exists
   * unless every round trip was too long to store, comes from the smallest
   * half round trip, and is off by at most that half and one microsecond.
   */
  lemma ClockError(samples: seq<Sample>, offset: int)
    requires forall j :: 0 <= j < |samples| ==> Honest(samples[j], offset)
    ensures var c := SyncAll(samples);
            && (c.have <==> exists j :: 0 <= j < |samples| && Half(samples[j]) < UINT32S - 1)
            && (c.have ==> forall j :: 0 <= j < |samples| ==> c.rtt2Us <= Half(samples[j]))
            && (c.have ==> exists i :: 0 <= i < |samples| && Best(samples, i)
                                       && c.rtt2Us == Half(samples[i]) && c.offsetUs == Estimate(samples[i]))
            && (c.have ==> -c.rtt2Us - 1 <= c.offsetUs - offset <= c.rtt2Us)
  {
    hide Half, Estimate, SyncAll;
    var i := BestSoFar(samples, offset);
    if SyncAll(samples).have {
      EstimateError(samples[i], offset);
    }
  }
}
