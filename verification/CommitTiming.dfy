/** Timing of the signatures in a block's last commit. The sort used by the program is not stable,
    so it is any time-sorted rearrangement; times and durations are nanoseconds. */
module CommitTiming {
  import opened Chain
  import Rearrange
  import Stats = SignatureStats

  datatype Flag = Absent | Commit | Nil | Unknown

  datatype Sig = Sig(flag: Flag, address: string, time: Time)

  datatype CommittedBlock = CommittedBlock(lastCommit: Option<seq<Sig>>, proposer: string)

  datatype Signer = Signer(time: Time, address: string)

  datatype Metrics = Metrics(
    time: Time, isProposer: bool, status: Flag, absoluteDelay: int, relativeDelay: int,
    stdDevDistance: real, proposerDelay: Option<int>, reactionTime: int)

  const ABSENT := Metrics(0, false, Absent, 0, 0, 0.0, None, 0)

  function Signatures(block: CommittedBlock): seq<Sig> {
    if block.lastCommit.Some? then block.lastCommit.value else []
  }

  predicate Counts(sig: Sig) {
    sig.flag != Absent && sig.flag != Nil
  }

  /** The signatures that enter the timing analysis. */
  function Signers(sigs: seq<Sig>): seq<Signer> {
    if sigs == [] then []
    else
      var last := sigs[|sigs| - 1];
      Signers(sigs[..|sigs| - 1]) + if Counts(last) then [Signer(last.time, last.address)] else []
  }

  function Others(signers: seq<Signer>, proposer: string): seq<Signer> {
    if signers == [] then []
    else
      var last := signers[|signers| - 1];
      Others(signers[..|signers| - 1], proposer) + if last.address != proposer then [last] else []
  }

  function MinTime(signers: seq<Signer>): (t: Time)
    requires signers != []
    ensures exists s :: s in signers && s.time == t
    ensures forall s | s in signers :: t <= s.time
  {
    if |signers| == 1 then signers[0].time
    else
      var init, last := signers[..|signers| - 1], signers[|signers| - 1];
      assert forall s :: s in signers <==> s in init || s == last;
      if last.time < MinTime(init) then last.time else MinTime(init)
  }

  function MaxTime(signers: seq<Signer>): (t: Time)
    requires signers != []
    ensures exists s :: s in signers && s.time == t
    ensures forall s | s in signers :: s.time <= t
  {
    if |signers| == 1 then signers[0].time
    else
      var init, last := signers[..|signers| - 1], signers[|signers| - 1];
      assert forall s :: s in signers <==> s in init || s == last;
      if last.time > MaxTime(init) then last.time else MaxTime(init)
  }

  function RoundDuration(signers: seq<Signer>): int {
    if signers == [] then 0 else MaxTime(signers) - MinTime(signers)
  }

  /** Some outcome of sorting by time. */
  predicate SortOf(sorted: seq<Signer>, signers: seq<Signer>) {
    && multiset(sorted) == multiset(signers)
    && forall i, j | 0 <= i < j < |sorted| :: sorted[i].time <= sorted[j].time
  }

  /** No two signatures carry the same address; absent ones carry none. */
  ghost predicate DistinctSigners(sigs: seq<Sig>) {
    forall i, j | 0 <= i < j < |sigs| && sigs[i].flag != Absent && sigs[j].flag != Absent ::
      sigs[i].address != sigs[j].address
  }

  ghost predicate DistinctAddresses(signers: seq<Signer>) {
    && (forall s | s in signers :: multiset(signers)[s] == 1)
    && forall s, s' | s in signers && s' in signers :: s.address == s'.address ==> s == s'
  }

  // ---------------------------------------------------------------------------
  // The computations

  lemma SignersOfNone()
    ensures Signers([]) == []
  {
  }

  lemma SignersOneMore(sigs: seq<Sig>, i: nat)
    requires i < |sigs|
    ensures Signers(sigs[..i + 1]) ==
            if Counts(sigs[i]) then Signers(sigs[..i]) + [Signer(sigs[i].time, sigs[i].address)] else Signers(sigs[..i])
  {
    assert sigs[..i + 1][..i] == sigs[..i];
  }

  lemma ExtremesOfOneMore(signers: seq<Signer>, s: Signer)
    ensures MinTime(signers + [s]) == if signers == [] || s.time < MinTime(signers) then s.time else MinTime(signers)
    ensures MaxTime(signers + [s]) == if signers == [] || s.time > MaxTime(signers) then s.time else MaxTime(signers)
  {
  }

  lemma DurationIsSpread(sigs: seq<Sig>)
    ensures var d := RoundDuration(Signers(sigs));
            && ((forall sig | sig in sigs :: !Counts(sig)) ==> d == 0)
            && (forall a, b | a in sigs && b in sigs && Counts(a) && Counts(b) :: a.time - b.time <= d)
            && ((exists sig :: sig in sigs && Counts(sig)) ==>
                  exists a, b :: a in sigs && b in sigs && Counts(a) && Counts(b) && a.time - b.time == d)
  {
    var signers := Signers(sigs);
    SignersAre(sigs);
    hide Signers, MinTime, MaxTime;
    if signers == [] {
      forall sig | sig in sigs ensures !Counts(sig) {
        assert Signer(sig.time, sig.address) !in signers;
      }
    } else {
      var earliest, latest := MinTime(signers), MaxTime(signers);
      var first :| first in signers && first.time == earliest;
      var last :| last in signers && last.time == latest;
      var b :| b in sigs && Counts(b) && first == Signer(b.time, b.address);
      var a :| a in sigs && Counts(a) && last == Signer(a.time, a.address);
      assert a.time - b.time == RoundDuration(signers);
      forall a, b | a in sigs && b in sigs && Counts(a) && Counts(b) ensures a.time - b.time <= RoundDuration(signers) {
        assert Signer(a.time, a.address) in signers && Signer(b.time, b.address) in signers;
      }
    }
  }

  method LastCommitRoundDuration(block: CommittedBlock) returns (duration: int)
    ensures duration == RoundDuration(Signers(Signatures(block)))
    ensures (forall sig | sig in Signatures(block) :: !Counts(sig)) ==> duration == 0
    ensures forall a, b | a in Signatures(block) && b in Signatures(block) && Counts(a) && Counts(b) :: a.time - b.time <= duration
    ensures (exists sig :: sig in Signatures(block) && Counts(sig)) ==>
              exists a, b :: a in Signatures(block) && b in Signatures(block) && Counts(a) && Counts(b) && a.time - b.time == duration
  {
    DurationIsSpread(Signatures(block));
    if block.lastCommit.None? || |block.lastCommit.value| == 0 {
      return 0;
    }
    hide MinTime, MaxTime, Signers;
    var sigs := block.lastCommit.value;
    SignersOfNone();
    var minTime, maxTime, found := 0, 0, false;
    for i := 0 to |sigs|
      invariant found <==> Signers(sigs[..i]) != []
      invariant found ==> minTime == MinTime(Signers(sigs[..i])) && maxTime == MaxTime(Signers(sigs[..i]))
    {
      SignersOneMore(sigs, i);
      var sig := sigs[i];
      if sig.flag == Absent || sig.flag == Nil {
        continue;
      }
      ExtremesOfOneMore(Signers(sigs[..i]), Signer(sig.time, sig.address));
      if !found {
        minTime, maxTime, found := sig.time, sig.time, true;
        continue;
      }
      if sig.time < minTime {
        minTime := sig.time;
      }
      if sig.time > maxTime {
        maxTime := sig.time;
      }
    }
    assert sigs[..|sigs|] == sigs;
    if !found {
      return 0;
    }
    return maxTime - minTime;
  }

  /** The number of commit, nil and absent signatures. The commit signatures are those that enter the
      timing exactly if no flag is unknown. */
  method BlockSignaturesStats(block: CommittedBlock) returns (ok: nat, skipped: nat, missing: nat)
    ensures var sigs := Signatures(block);
            && ok == Flagged(sigs, Commit) && skipped == Flagged(sigs, Nil) && missing == Flagged(sigs, Absent)
            && ok + skipped + missing + Flagged(sigs, Unknown) == |sigs|
            && |Signers(sigs)| == ok + Flagged(sigs, Unknown)
            && (ok == |Signers(sigs)| <==> forall sig | sig in sigs :: sig.flag != Unknown)
  {
    if block.lastCommit.None? || |block.lastCommit.value| == 0 {
      return 0, 0, 0;
    }
    var sigs := block.lastCommit.value;
    ok, skipped, missing := 0, 0, 0;
    for i := 0 to |sigs|
      invariant ok == Flagged(sigs[..i], Commit) && skipped == Flagged(sigs[..i], Nil) && missing == Flagged(sigs[..i], Absent)
      invariant ok + skipped + missing + Flagged(sigs[..i], Unknown) == i
      invariant |Signers(sigs[..i])| == ok + Flagged(sigs[..i], Unknown)
    {
      assert sigs[..i + 1][..i] == sigs[..i];
      match sigs[i].flag {
        case Commit => ok := ok + 1;
        case Nil => skipped := skipped + 1;
        case Absent => missing := missing + 1;
        case Unknown =>
      }
    }
    assert sigs[..|sigs|] == sigs;
    NoneFlagged(sigs, Unknown);
  }

  lemma {:induction false} NoneFlagged(sigs: seq<Sig>, flag: Flag)
    ensures Flagged(sigs, flag) == 0 <==> forall sig | sig in sigs :: sig.flag != flag
  {
    if sigs != [] {
      var init, last := sigs[..|sigs| - 1], sigs[|sigs| - 1];
      NoneFlagged(init, flag);
      assert sigs == init + [last];
    }
  }

  /** A signature with an unknown flag is timed, but not counted. */
  lemma UnknownFlagIsTimed(address: string, time: Time)
    ensures var sigs := [Sig(Unknown, address, time)];
            && Signers(sigs) == [Signer(time, address)]
            && Flagged(sigs, Commit) == Flagged(sigs, Nil) == Flagged(sigs, Absent) == 0
  {
    var sigs := [Sig(Unknown, address, time)];
    assert sigs[..0] == [];
    assert Signers(sigs) == [] + [Signer(time, address)];
  }

  function Flagged(sigs: seq<Sig>, flag: Flag): nat {
    if sigs == [] then 0
    else Flagged(sigs[..|sigs| - 1], flag) + if sigs[|sigs| - 1].flag == flag then 1 else 0
  }

  method ComputeSortedValidatorSigs(block: CommittedBlock) returns (sorted: seq<Signer>)
    ensures SortOf(sorted, Signers(Signatures(block)))
  {
    if block.lastCommit.None? || |block.lastCommit.value| == 0 {
      return [];
    }
    var sigs := block.lastCommit.value;
    var signers: seq<Signer> := [];
    for i := 0 to |sigs|
      invariant signers == Signers(sigs[..i])
    {
      assert sigs[..i + 1][..i] == sigs[..i];
      var sig := sigs[i];
      if sig.flag == Absent || sig.flag == Nil {
        continue;
      }
      signers := signers + [Signer(sig.time, sig.address)];
    }
    assert sigs[..|sigs|] == sigs;
    var _ := SortExists(signers);
    sorted :| SortOf(sorted, signers);
  }

  lemma {:induction false} SortExists(signers: seq<Signer>) returns (sorted: seq<Signer>)
    ensures SortOf(sorted, signers)
    decreases |signers|
  {
    if signers == [] {
      sorted := [];
    } else {
      var last :| last in signers && last.time == MaxTime(signers);
      var k :| 0 <= k < |signers| && signers[k] == last;
      var before, after := signers[..k], signers[k + 1..];
      assert signers == before + [last] + after;
      Rearrange.InTheMiddle(before, last, after);
      var rest := SortExists(before + after);
      sorted := rest + [last];
      SortedBefore(rest, last, before + after, signers);
    }
  }

  lemma SortedBefore(rest: seq<Signer>, last: Signer, others: seq<Signer>, signers: seq<Signer>)
    requires SortOf(rest, others) && multiset(signers) == multiset(others) + multiset{last}
    requires signers != [] && last.time == MaxTime(signers)
    ensures SortOf(rest + [last], signers)
  {
    forall s | s in rest ensures s.time <= last.time {
      assert s in multiset(rest);
      assert s in multiset(signers);
    }
  }

  /** The delays from `minTime`; the last entry of an address wins. */
  function RelativeDelays(sorted: seq<Signer>, minTime: Time): map<string, int> {
    if sorted == [] then map[]
    else
      var last := sorted[|sorted| - 1];
      RelativeDelays(sorted[..|sorted| - 1], minTime)[last.address := last.time - minTime]
  }

  lemma {:induction false} RelativeKeys(sorted: seq<Signer>, minTime: Time)
    ensures forall a :: a in RelativeDelays(sorted, minTime) <==> exists s :: s in sorted && s.address == a
  {
    if sorted != [] {
      var init, last := sorted[..|sorted| - 1], sorted[|sorted| - 1];
      RelativeKeys(init, minTime);
      assert forall s :: s in sorted <==> s in init || s == last;
    }
  }

  lemma {:induction false} RelativeDelayOf(sorted: seq<Signer>, minTime: Time)
    requires DistinctAddresses(sorted)
    ensures forall s | s in sorted ::
              s.address in RelativeDelays(sorted, minTime) && RelativeDelays(sorted, minTime)[s.address] == s.time - minTime
  {
    if sorted != [] {
      var init, last := sorted[..|sorted| - 1], sorted[|sorted| - 1];
      assert sorted == init + [last];
      assert forall s :: s in sorted <==> s in init || s == last;
      assert multiset(sorted) == multiset(init) + multiset{last};
      assert last !in init;
      RelativeDelayOf(init, minTime);
    }
  }

  /** Of several entries with one address, the last one's delay is kept. */
  lemma {:induction false} LastEntryWins(sorted: seq<Signer>, minTime: Time, i: nat)
    requires i < |sorted| && forall k | i < k < |sorted| :: sorted[k].address != sorted[i].address
    ensures sorted[i].address in RelativeDelays(sorted, minTime)
    ensures RelativeDelays(sorted, minTime)[sorted[i].address] == sorted[i].time - minTime
  {
    if i < |sorted| - 1 {
      LastEntryWins(sorted[..|sorted| - 1], minTime, i);
    }
  }

  method ComputeRelativeDelays(sorted: seq<Signer>) returns (delays: map<string, int>)
    ensures delays == if sorted == [] then map[] else RelativeDelays(sorted, sorted[0].time)
  {
    delays := map[];
    if |sorted| == 0 {
      return;
    }
    var minTime := sorted[0].time;
    for i := 0 to |sorted|
      invariant delays == RelativeDelays(sorted[..i], minTime)
    {
      assert sorted[..i + 1][..i] == sorted[..i];
      delays := delays[sorted[i].address := sorted[i].time - minTime];
    }
    assert sorted[..|sorted|] == sorted;
  }

  /** What is reported about a signature, given the signers and the deviation of their delays. */
  ghost predicate MetricsOf(m: Metrics, sig: Sig, signers: seq<Signer>, proposer: string, stdDev: real)
    requires signers != []
  {
    var delays, others := RelativeDelays(signers, MinTime(signers)), Others(signers, proposer);
    && m.time == sig.time && m.status == sig.flag && m.isProposer == (sig.address == proposer)
    && m.absoluteDelay == sig.time - MinTime(signers)
    && m.relativeDelay == (if Counts(sig) then m.absoluteDelay else 0)
    && IsDistance(m.stdDevDistance, m.relativeDelay, stdDev, delays)
    && m.proposerDelay == (if m.isProposer && others != [] then Some(sig.time - MinTime(others)) else None)
    && m.reactionTime == (if m.isProposer || others == [] then 0 else sig.time - MinTime(others))
  }

  ghost predicate IsDistance(distance: real, delay: int, stdDev: real, delays: map<string, int>) {
    forall order | Stats.Enumerates(order, delays) ::
      distance == Stats.Distance(Stats.Ms(delay), stdDev, Stats.NonZero(delays, order))
  }

  ghost predicate IsDeviation(stdDev: real, delays: map<string, int>, sqrt: real -> real) {
    forall order | Stats.Enumerates(order, delays) :: stdDev == Stats.StdDev(Stats.NonZero(delays, order), sqrt)
  }

  predicate Signed(sigs: seq<Sig>, address: string) {
    exists sig | sig in sigs :: sig.flag != Absent && sig.address == address
  }

  ghost predicate Keyed(metrics: map<string, Metrics>, sigs: seq<Sig>) {
    forall a :: a in metrics <==> Signed(sigs, a)
  }

  ghost predicate Each(metrics: map<string, Metrics>, sigs: seq<Sig>, signers: seq<Signer>, proposer: string, stdDev: real)
    requires signers != []
  {
    forall sig | sig in sigs && sig.flag != Absent ::
      sig.address in metrics && MetricsOf(metrics[sig.address], sig, signers, proposer, stdDev)
  }

  ghost predicate Reported(metrics: map<string, Metrics>, stdDev: real, sigs: seq<Sig>, proposer: string,
                           sqrt: real -> real)
    requires Signers(sigs) != []
  {
    var signers := Signers(sigs);
    && IsDeviation(stdDev, RelativeDelays(signers, MinTime(signers)), sqrt)
    && Each(metrics, sigs, signers, proposer, stdDev)
  }

  lemma SkipAbsent(metrics: map<string, Metrics>, sigs: seq<Sig>, sig: Sig, signers: seq<Signer>, proposer: string,
                   stdDev: real)
    requires signers != [] && sig.flag == Absent
    ensures Keyed(metrics, sigs) ==> Keyed(metrics, sigs + [sig])
    ensures Each(metrics, sigs, signers, proposer, stdDev) ==> Each(metrics, sigs + [sig], signers, proposer, stdDev)
  {
  }

  lemma KeyedOneMore(metrics: map<string, Metrics>, sigs: seq<Sig>, sig: Sig, m: Metrics)
    requires Keyed(metrics, sigs) && sig.flag != Absent
    ensures Keyed(metrics[sig.address := m], sigs + [sig])
  {
  }

  lemma WithActiveSet(perValidator: map<string, Metrics>, all: map<string, Metrics>, activeSet: seq<string>,
                      sigs: seq<Sig>, signers: seq<Signer>, proposer: string, stdDev: real)
    requires Keyed(perValidator, sigs) && signers != []
    requires forall a :: a in all <==> a in perValidator || a in activeSet
    requires forall a | a in all :: all[a] == if a in perValidator then perValidator[a] else ABSENT
    ensures forall a :: a in all <==> Signed(sigs, a) || a in activeSet
    ensures forall a | a in all && !Signed(sigs, a) :: all[a] == ABSENT
    ensures Each(perValidator, sigs, signers, proposer, stdDev) ==> Each(all, sigs, signers, proposer, stdDev)
  {
    hide MetricsOf;
  }

  lemma EachOneMore(metrics: map<string, Metrics>, sigs: seq<Sig>, i: nat, m: Metrics, signers: seq<Signer>,
                    proposer: string, stdDev: real)
    requires i < |sigs| && sigs[i].flag != Absent && DistinctSigners(sigs) && signers != []
    requires Each(metrics, sigs[..i], signers, proposer, stdDev) && MetricsOf(m, sigs[i], signers, proposer, stdDev)
    ensures Each(metrics[sigs[i].address := m], sigs[..i] + [sigs[i]], signers, proposer, stdDev)
  {
  }

  /** The earliest signer other than the proposer, if there is one. */
  method EarliestNonProposer(sorted: seq<Signer>, proposer: string) returns (earliest: Option<Signer>)
    ensures earliest.None? ==> forall s | s in sorted :: s.address == proposer
    ensures earliest.Some? ==>
              exists i | 0 <= i < |sorted| :: sorted[i] == earliest.value && sorted[i].address != proposer &&
                forall k | 0 <= k < i :: sorted[k].address == proposer
  {
    for i := 0 to |sorted|
      invariant forall k | 0 <= k < i :: sorted[k].address == proposer
    {
      if sorted[i].address != proposer {
        return Some(sorted[i]);
      }
    }
    return None;
  }

  ghost predicate EarliestOf(earliest: Option<Signer>, others: seq<Signer>) {
    if earliest.None? then others == []
    else earliest.value in others && earliest.value.time == MinTime(others)
  }

  /** The signature is the only one of its address. */
  ghost predicate OnlyOne(sig: Sig, signers: seq<Signer>) {
    && (Counts(sig) ==> Signer(sig.time, sig.address) in signers)
    && forall s | s in signers && s.address == sig.address :: Counts(sig) && s.time == sig.time
  }

  method MetricsOfSignature(sig: Sig, sorted: seq<Signer>, proposer: string, earliest: Option<Signer>,
                            delays: map<string, int>, stdDev: real, ghost signers: seq<Signer>)
    returns (m: Metrics)
    requires sorted != [] && signers != [] && sorted[0].time == MinTime(signers)
    requires EarliestOf(earliest, Others(signers, proposer))
    ensures DistinctAddresses(signers) && OnlyOne(sig, signers) && delays == RelativeDelays(signers, MinTime(signers)) ==>
              MetricsOf(m, sig, signers, proposer, stdDev)
  {
    hide MinTime, Others, RelativeDelays, DistinctAddresses, Stats.Enumerates, Stats.Distance, Stats.NonZero, Stats.Ms;
    var relativeDelay := if sig.address in delays then delays[sig.address] else 0;
    var distance := Stats.ComputeStdDevDistance(relativeDelay, stdDev, delays);
    var isProposer := sig.address == proposer;
    m := Metrics(sig.time, isProposer, sig.flag, sig.time - sorted[0].time, relativeDelay, distance, None, 0);
    if isProposer && earliest.Some? {
      m := m.(proposerDelay := Some(sig.time - earliest.value.time), reactionTime := 0);
    } else if earliest.Some? {
      if sig.address == earliest.value.address {
        m := m.(reactionTime := 0);
      } else {
        m := m.(reactionTime := sig.time - earliest.value.time);
      }
    }
    if DistinctAddresses(signers) && OnlyOne(sig, signers) && delays == RelativeDelays(signers, MinTime(signers)) {
      RelativeKeys(signers, MinTime(signers));
      RelativeDelayOf(signers, MinTime(signers));
      OthersAre(signers, proposer);
    }
  }

  method AddActiveSet(perValidator: map<string, Metrics>, activeSet: seq<string>) returns (metrics: map<string, Metrics>)
    ensures forall a :: a in metrics <==> a in perValidator || a in activeSet
    ensures forall a | a in metrics :: metrics[a] == if a in perValidator then perValidator[a] else ABSENT
  {
    metrics := perValidator;
    for i := 0 to |activeSet|
      invariant forall a :: a in metrics <==> a in perValidator || a in activeSet[..i]
      invariant forall a | a in metrics :: metrics[a] == if a in perValidator then perValidator[a] else ABSENT
    {
      assert activeSet[..i + 1] == activeSet[..i] + [activeSet[i]];
      if activeSet[i] !in metrics {
        metrics := metrics[activeSet[i] := ABSENT];
      }
    }
    assert activeSet[..|activeSet|] == activeSet;
  }

  lemma {:induction false} OthersAre(signers: seq<Signer>, proposer: string)
    ensures forall s :: s in Others(signers, proposer) <==> s in signers && s.address != proposer
    ensures Others(signers, proposer) == [] <==> forall s | s in signers :: s.address == proposer
  {
    if signers != [] {
      var init, last := signers[..|signers| - 1], signers[|signers| - 1];
      OthersAre(init, proposer);
      assert signers == init + [last];
    }
  }

  lemma {:induction false} SignersAre(sigs: seq<Sig>)
    ensures forall s :: s in Signers(sigs) <==>
                        exists sig :: sig in sigs && Counts(sig) && s == Signer(sig.time, sig.address)
  {
    if sigs != [] {
      var init, last := sigs[..|sigs| - 1], sigs[|sigs| - 1];
      SignersAre(init);
      assert sigs == init + [last];
      assert forall sig :: sig in sigs <==> sig in init || sig == last;
    }
  }

  lemma {:induction false} SignersAreDistinct(sigs: seq<Sig>)
    requires DistinctSigners(sigs)
    ensures DistinctAddresses(Signers(sigs))
  {
    if sigs != [] {
      var init, last := sigs[..|sigs| - 1], sigs[|sigs| - 1];
      SignersAreDistinct(init);
      SignersAre(init);
      hide DistinctAddresses;
      if Counts(last) {
        DistinctOneMore(Signers(init), Signer(last.time, last.address));
      } else {
        assert Signers(init) + [] == Signers(init);
      }
    }
  }

  lemma DistinctOneMore(signers: seq<Signer>, s: Signer)
    requires DistinctAddresses(signers) && forall x | x in signers :: x.address != s.address
    ensures DistinctAddresses(signers + [s])
  {
  }

  lemma EachIsOnlyOne(sigs: seq<Sig>, sig: Sig)
    requires DistinctSigners(sigs) && sig in sigs && sig.flag != Absent
    ensures OnlyOne(sig, Signers(sigs))
  {
    SignersAre(sigs);
    var signers := Signers(sigs);
    forall s | s in signers && s.address == sig.address ensures Counts(sig) && s.time == sig.time {
      var sig' :| sig' in sigs && Counts(sig') && s == Signer(sig'.time, sig'.address);
      assert sig' == sig;
    }
  }

  lemma {:induction false} SortedEnds(sorted: seq<Signer>, signers: seq<Signer>)
    requires SortOf(sorted, signers) && sorted != []
    ensures signers != [] && (forall s :: s in sorted <==> s in signers)
    ensures sorted[0].time == MinTime(signers) && sorted[|sorted| - 1].time == MaxTime(signers)
  {
    assert |multiset(sorted)| == |multiset(signers)|;
    forall s ensures s in sorted <==> s in signers {
      assert s in multiset(sorted) <==> s in multiset(signers);
    }
    hide MinTime, MaxTime;
    var first, last := sorted[0], sorted[|sorted| - 1];
    assert first in signers && last in signers;
    forall s | s in signers ensures first.time <= s.time <= last.time {
      var i :| 0 <= i < |sorted| && sorted[i] == s;
    }
  }

  lemma {:induction false} EarliestIsMin(sorted: seq<Signer>, signers: seq<Signer>, proposer: string, earliest: Option<Signer>)
    requires SortOf(sorted, signers) && sorted != []
    requires earliest.None? ==> forall s | s in sorted :: s.address == proposer
    requires earliest.Some? ==>
               exists i | 0 <= i < |sorted| :: sorted[i] == earliest.value && sorted[i].address != proposer &&
                 forall k | 0 <= k < i :: sorted[k].address == proposer
    ensures EarliestOf(earliest, Others(signers, proposer))
  {
    var others := Others(signers, proposer);
    SortedEnds(sorted, signers);
    OthersAre(signers, proposer);
    if earliest.Some? {
      var i :| 0 <= i < |sorted| && sorted[i] == earliest.value && sorted[i].address != proposer &&
               forall k | 0 <= k < i :: sorted[k].address == proposer;
      assert sorted[i] in others;
      forall s | s in others ensures sorted[i].time <= s.time {
        assert s in sorted;
      }
    }
  }

  lemma {:induction false} SortKeepsDelays(sorted: seq<Signer>, signers: seq<Signer>, minTime: Time)
    requires SortOf(sorted, signers) && sorted != [] && DistinctAddresses(signers)
    ensures DistinctAddresses(sorted)
    ensures RelativeDelays(sorted, minTime) == RelativeDelays(signers, minTime)
  {
    hide RelativeDelays, MinTime, MaxTime, DistinctAddresses, SortOf;
    SortKeepsDistinct(sorted, signers);
    SortedEnds(sorted, signers);
    RelativeKeys(sorted, minTime);
    RelativeKeys(signers, minTime);
    RelativeDelayOf(sorted, minTime);
    RelativeDelayOf(signers, minTime);
    var a, b := RelativeDelays(sorted, minTime), RelativeDelays(signers, minTime);
    forall k ensures k in a <==> k in b {
    }
    forall k | k in a ensures a[k] == b[k] {
      var s :| s in sorted && s.address == k;
    }
  }

  lemma SortKeepsDistinct(sorted: seq<Signer>, signers: seq<Signer>)
    requires SortOf(sorted, signers) && DistinctAddresses(signers)
    ensures DistinctAddresses(sorted)
  {
  }

  method MetricsPerSigner(sigs: seq<Sig>, sorted: seq<Signer>, proposer: string, earliest: Option<Signer>,
                          delays: map<string, int>, stdDev: real, ghost signers: seq<Signer>)
    returns (perValidator: map<string, Metrics>)
    requires sorted != [] && signers == Signers(sigs) != [] && sorted[0].time == MinTime(signers)
    requires EarliestOf(earliest, Others(signers, proposer))
    requires DistinctSigners(sigs) ==> delays == RelativeDelays(signers, MinTime(signers))
    ensures Keyed(perValidator, sigs)
    ensures DistinctSigners(sigs) ==> Each(perValidator, sigs, signers, proposer, stdDev)
  {
    hide Signers, MinTime, MaxTime, Others, RelativeDelays, DistinctSigners, OnlyOne, MetricsOf, EarliestOf;
    hide Keyed, Each, DistinctAddresses, Signed;
    if DistinctSigners(sigs) {
      SignersAreDistinct(sigs);
    }
    NothingYet(signers, proposer, stdDev);
    perValidator := map[];
    for i := 0 to |sigs|
      invariant Keyed(perValidator, sigs[..i])
      invariant DistinctSigners(sigs) ==> Each(perValidator, sigs[..i], signers, proposer, stdDev)
    {
      var sig := sigs[i];
      assert sigs[..i + 1] == sigs[..i] + [sig];
      if sig.flag == Absent {
        SkipAbsent(perValidator, sigs[..i], sig, signers, proposer, stdDev);
        continue;
      }
      if DistinctSigners(sigs) {
        EachIsOnlyOne(sigs, sig);
      }
      var m := MetricsOfSignature(sig, sorted, proposer, earliest, delays, stdDev, signers);
      KeyedOneMore(perValidator, sigs[..i], sig, m);
      if DistinctSigners(sigs) {
        EachOneMore(perValidator, sigs, i, m, signers, proposer, stdDev);
      }
      perValidator := perValidator[sig.address := m];
    }
    assert sigs[..|sigs|] == sigs;
  }

  lemma NothingYet(signers: seq<Signer>, proposer: string, stdDev: real)
    requires signers != []
    ensures Keyed(map[], []) && Each(map[], [], signers, proposer, stdDev)
  {
  }

  /** Everybody known is reported: the non-absent signers and the active set. */
  ghost predicate KeysAre(metrics: map<string, Metrics>, sigs: seq<Sig>, activeSet: seq<string>) {
    forall a :: a in metrics <==> Signed(sigs, a) || a in activeSet
  }

  predicate NobodyKnown(sigs: seq<Sig>, activeSet: seq<string>) {
    activeSet == [] && forall sig | sig in sigs :: sig.flag == Absent
  }

  lemma NoKeysIff(sigs: seq<Sig>, activeSet: seq<string>)
    ensures KeysAre(map[], sigs, activeSet) <==> NobodyKnown(sigs, activeSet)
  {
    if activeSet != [] {
      assert activeSet[0] in activeSet;
    }
    forall sig | sig in sigs && sig.flag != Absent ensures Signed(sigs, sig.address) {
    }
  }

  /** The active set is a list of addresses; `None` is the absence of a map. */
  method LastCommitMetrics(block: CommittedBlock, activeSet: seq<string>, sqrt: real -> real)
    returns (metrics: Option<map<string, Metrics>>, stdDev: real)
    ensures metrics.None? <==> Signatures(block) == []
    ensures Signers(Signatures(block)) == [] && metrics.Some? ==> metrics.value == map[] && stdDev == 0.0
    ensures metrics.Some? ==> (KeysAre(metrics.value, Signatures(block), activeSet) <==>
                               Signers(Signatures(block)) != [] || NobodyKnown(Signatures(block), activeSet))
    ensures Signers(Signatures(block)) != [] ==>
              var sigs := Signatures(block);
              && (forall a :: a in metrics.value <==> Signed(sigs, a) || a in activeSet)
              && (forall a | a in metrics.value && !Signed(sigs, a) ::
                    metrics.value[a] == Metrics(0, false, Absent, 0, 0, 0.0, None, 0))
              && (DistinctSigners(sigs) ==> Reported(metrics.value, stdDev, sigs, block.proposer, sqrt))
  {
    if block.lastCommit.None? || |block.lastCommit.value| == 0 {
      return None, 0.0;
    }
    hide Signers, MinTime, MaxTime, Others, RelativeDelays, SortOf, DistinctSigners, OnlyOne, MetricsOf, EarliestOf;
    hide Keyed, Each, DistinctAddresses, Stats.Enumerates, Stats.StdDev, Stats.NonZero, Signed;
    var sigs, proposer := block.lastCommit.value, block.proposer;
    ghost var signers := Signers(sigs);
    var sorted := ComputeSortedValidatorSigs(block);
    if |sorted| == 0 {
      assert |multiset(signers)| == 0;
      NoKeysIff(sigs, activeSet);
      return Some(map[]), 0.0;
    }
    SortedEnds(sorted, signers);
    var earliest := EarliestNonProposer(sorted, proposer);
    EarliestIsMin(sorted, signers, proposer, earliest);
    var delays := ComputeRelativeDelays(sorted);
    stdDev := Stats.ComputeStdDevOfDelays(delays, sqrt);
    if DistinctSigners(sigs) {
      SignersAreDistinct(sigs);
      SortKeepsDelays(sorted, signers, sorted[0].time);
    }
    var perValidator := MetricsPerSigner(sigs, sorted, proposer, earliest, delays, stdDev, signers);
    var all := AddActiveSet(perValidator, activeSet);
    WithActiveSet(perValidator, all, activeSet, sigs, signers, proposer, stdDev);
    metrics := Some(all);
  }

  // ---------------------------------------------------------------------------
  // What the measurements mean together

  /** The one-pass round duration is the spread of every sorted rearrangement and the largest relative delay. */
  lemma {:induction false} RoundDurationAgrees(sigs: seq<Sig>, sorted: seq<Signer>)
    requires SortOf(sorted, Signers(sigs)) && sorted != [] && DistinctSigners(sigs)
    ensures RoundDuration(Signers(sigs)) == sorted[|sorted| - 1].time - sorted[0].time
    ensures var delays := RelativeDelays(sorted, sorted[0].time);
            && (forall a | a in delays :: 0 <= delays[a] <= RoundDuration(Signers(sigs)))
            && var slowest := sorted[|sorted| - 1].address;
               slowest in delays && delays[slowest] == RoundDuration(Signers(sigs))
  {
    hide Signers, RelativeDelays, DistinctAddresses, SortOf, DistinctSigners;
    SignersAreDistinct(sigs);
    SortKeepsDistinct(sorted, Signers(sigs));
    SortedEnds(sorted, Signers(sigs));
    LargestRelativeDelay(sorted);
  }

  lemma {:induction false} LargestRelativeDelay(sorted: seq<Signer>)
    requires sorted != [] && DistinctAddresses(sorted)
    requires forall s | s in sorted :: sorted[0].time <= s.time <= sorted[|sorted| - 1].time
    ensures var delays, spread := RelativeDelays(sorted, sorted[0].time), sorted[|sorted| - 1].time - sorted[0].time;
            && (forall a | a in delays :: 0 <= delays[a] <= spread)
            && var slowest := sorted[|sorted| - 1].address; slowest in delays && delays[slowest] == spread
  {
    var minTime, last := sorted[0].time, sorted[|sorted| - 1];
    hide RelativeDelays, DistinctAddresses;
    RelativeDelayOf(sorted, minTime);
    var delays := RelativeDelays(sorted, minTime);
    assert last in sorted;
    assert last.address in delays && delays[last.address] == last.time - minTime;
    forall a | a in delays ensures 0 <= delays[a] <= last.time - minTime {
      RelativeKeys(sorted, minTime);
      var s :| s in sorted && s.address == a;
    }
  }

  /** For a commit signature both delays are the time since the first one, at most the round duration. */
  lemma {:induction false} CommitDelays(metrics: map<string, Metrics>, stdDev: real, sigs: seq<Sig>, proposer: string,
                     sqrt: real -> real, sig: Sig)
    requires Signers(sigs) != [] && Reported(metrics, stdDev, sigs, proposer, sqrt)
    requires sig in sigs && Counts(sig)
    ensures var m := metrics[sig.address];
            && m.relativeDelay == m.absoluteDelay == sig.time - MinTime(Signers(sigs))
            && 0 <= m.relativeDelay <= RoundDuration(Signers(sigs))
  {
    SignersAre(sigs);
    hide Signers, MinTime, MaxTime, Others, RelativeDelays, IsDistance, IsDeviation;
    assert Signer(sig.time, sig.address) in Signers(sigs);
  }

  /** Some reported relative delay is the round duration. */
  lemma {:induction false} RoundDurationIsReported(metrics: map<string, Metrics>, stdDev: real, sigs: seq<Sig>, proposer: string,
                                sqrt: real -> real)
    requires Signers(sigs) != [] && Reported(metrics, stdDev, sigs, proposer, sqrt)
    ensures exists sig :: sig in sigs && Counts(sig) &&
                          metrics[sig.address].relativeDelay == RoundDuration(Signers(sigs))
  {
    SignersAre(sigs);
    hide Signers, MinTime, MaxTime, Others, RelativeDelays, IsDistance, IsDeviation;
    var last :| last in Signers(sigs) && last.time == MaxTime(Signers(sigs));
    var sig :| sig in sigs && Counts(sig) && last == Signer(sig.time, sig.address);
  }

  /** A commit signer other than the proposer reacts to the first such signer: its reaction time is the
      largest of its leads behind them, and never negative. */
  lemma {:induction false} ReactionTimes(metrics: map<string, Metrics>, stdDev: real, sigs: seq<Sig>, proposer: string,
                      sqrt: real -> real, sig: Sig)
    requires Signers(sigs) != [] && Reported(metrics, stdDev, sigs, proposer, sqrt)
    requires sig in sigs && Counts(sig) && sig.address != proposer
    ensures var reaction, others := metrics[sig.address].reactionTime, Others(Signers(sigs), proposer);
            && reaction >= 0
            && (forall s | s in others :: sig.time - s.time <= reaction)
            && exists s :: s in others && sig.time - s.time == reaction
  {
    SignersAre(sigs);
    OthersAre(Signers(sigs), proposer);
    hide Signers, MinTime, MaxTime, Others, RelativeDelays, IsDistance, IsDeviation;
    assert Signer(sig.time, sig.address) in Others(Signers(sigs), proposer);
  }

  /** A proposer's delay is the largest of its distances behind the other commit signers: negative exactly when
      it signs before all of them. */
  lemma {:induction false} ProposerDelays(metrics: map<string, Metrics>, stdDev: real, sigs: seq<Sig>, proposer: string,
                       sqrt: real -> real, sig: Sig)
    requires Signers(sigs) != [] && Reported(metrics, stdDev, sigs, proposer, sqrt)
    requires sig in sigs && sig.flag != Absent
    ensures var delay, others := metrics[sig.address].proposerDelay, Others(Signers(sigs), proposer);
            && (delay.Some? <==> sig.address == proposer && others != [])
            && (delay.Some? ==>
                  && (forall s | s in others :: sig.time - s.time <= delay.value)
                  && (exists s :: s in others && sig.time - s.time == delay.value)
                  && (delay.value < 0 <==> forall s | s in others :: sig.time < s.time))
  {
    hide Signers, MinTime, MaxTime, Others, RelativeDelays, IsDistance, IsDeviation;
  }

  /** The reported distance of a delayed commit signer is bounded by the number of delayed signers. */
  lemma ReportedDistanceIsBounded(metrics: map<string, Metrics>, stdDev: real, sigs: seq<Sig>, proposer: string,
                                  sqrt: real -> real, sig: Sig, order: seq<string>)
    requires Signers(sigs) != [] && Reported(metrics, stdDev, sigs, proposer, sqrt) && DistinctSigners(sigs)
    requires forall v: real | v >= 0.0 :: Stats.Square(sqrt(v)) == v
    requires sig in sigs && Counts(sig) && metrics[sig.address].relativeDelay != 0
    requires Stats.Enumerates(order, RelativeDelays(Signers(sigs), MinTime(Signers(sigs))))
    ensures var delays := RelativeDelays(Signers(sigs), MinTime(Signers(sigs)));
            Stats.Square(metrics[sig.address].stdDevDistance) <= |Stats.NonZero(delays, order)| as real - 1.0
  {
    var signers := Signers(sigs);
    var delays := RelativeDelays(signers, MinTime(signers));
    var m := metrics[sig.address];
    SignersAre(sigs);
    SignersAreDistinct(sigs);
    RelativeDelayOf(signers, MinTime(signers));
    assert Signer(sig.time, sig.address) in signers;
    assert delays[sig.address] == m.relativeDelay;
    Stats.DistanceIsBounded(delays, order, sig.address, stdDev, sqrt);
  }
}
