/** BamScorer: scores every read of an alignment file with every matrix and keeps the
    per-read hit statistics. A read is abstracted to its flag and its decoded bases. */
module BamScoring {
  import opened ScoreMatrices

  /** An aligned read: its SAM flag and the bases decoded from the packed sequence. */
  datatype Read = Read(flag: bv16, bases: string)

  /** unmapped(read): the code tests the flag bit of value 0x10 (1 << 4). */
  predicate Unmapped(read: Read)
    ensures Unmapped(read) <==> read.flag & 0x10 == 0x10
  {
    read.flag & 0x10 != 0
  }

  /** Flag 0x10 counts as unmapped, with or without other bits; SAM's unmapped bit 0x4
      alone does not. */
  lemma UnmappedFlagExamples()
    ensures Unmapped(Read(0x10, "")) && Unmapped(Read(0x14, "ACGT"))
    ensures !Unmapped(Read(0x4, "")) && !Unmapped(Read(0, ""))
  {
  }

  /** A window counts as a hit when its p-value is below this threshold. */
  const HitThreshold: real := 0.0001

  predicate IsHit(call: ConsumerCall)
    ensures call.score.outcome.Unscorable? ==> !IsHit(call)
  {
    call.score.PValueBelow(HitThreshold)
  }

  /** Number of hits among consumer calls. */
  function CountHits(calls: seq<ConsumerCall>): (n: nat)
    ensures n <= |calls|
  {
    if |calls| == 0 then 0
    else CountHits(calls[..|calls| - 1]) + (if IsHit(calls[|calls| - 1]) then 1 else 0)
  }

  predicate AllValid(matrices: seq<ScoreMatrix>) {
    forall i :: 0 <= i < |matrices| ==> matrices[i].Valid()
  }

  /** Hits of scanning one sequence with every matrix in turn. */
  function SequenceHits(matrices: seq<ScoreMatrix>, bases: string, sequenceName: string): nat
    requires AllValid(matrices)
  {
    if |matrices| == 0 then 0
    else
      var n := |matrices| - 1;
      SequenceHits(matrices[..n], bases, sequenceName) + CountHits(matrices[n].Calls(bases, sequenceName))
  }

  /** Whether a read is scanned at all: a mapped read is skipped in unmapped-only mode. */
  predicate Scanned(onlyScoreUnmapped: bool, read: Read) {
    Unmapped(read) || !onlyScoreUnmapped
  }

  /** Hits a read contributes: those of its scans, or none when it is skipped. */
  function ReadHits(matrices: seq<ScoreMatrix>, onlyScoreUnmapped: bool, read: Read, sequenceName: string): nat
    requires AllValid(matrices)
  {
    if Scanned(onlyScoreUnmapped, read) then SequenceHits(matrices, read.bases, sequenceName) else 0
  }

  /** Number of unmapped reads in a run. */
  function UnmappedReads(run: seq<Read>): (n: nat)
    ensures n <= |run|
  {
    if |run| == 0 then 0
    else UnmappedReads(run[..|run| - 1]) + (if Unmapped(run[|run| - 1]) then 1 else 0)
  }

  /** The statistics of a BamScorer: its five counters and the reads it has written. */
  datatype Counters = Counters(readCount: nat, unmappedCount: nat, readHitCount: nat,
                               unmappedHitCount: nat, totalHitCount: nat, written: seq<Read>)
  {
    /** The relations between the counters that every read preserves. */
    predicate Invariant(hasOutput: bool) {
      unmappedCount <= readCount &&
      unmappedHitCount <= unmappedCount &&
      unmappedHitCount <= readHitCount <= readCount &&
      readHitCount <= totalHitCount &&
      readHitCount - unmappedHitCount <= readCount - unmappedCount &&
      |written| == (if hasOutput then readHitCount else 0)
    }

    /** The effect of scoring one read that produced hits hits (0 for a skipped read). */
    function Record(read: Read, hits: nat, hasOutput: bool): (r: Counters)
      ensures r.readCount > readCount && r.unmappedCount >= unmappedCount
      ensures r.readHitCount >= readHitCount && r.unmappedHitCount >= unmappedHitCount
      ensures r.totalHitCount >= totalHitCount && |r.written| >= |written| && r.written[..|written|] == written
    {
      var hit := hits > 0;
      Counters(readCount + 1,
               unmappedCount + (if Unmapped(read) then 1 else 0),
               readHitCount + (if hit then 1 else 0),
               unmappedHitCount + (if hit && Unmapped(read) then 1 else 0),
               totalHitCount + hits,
               written + (if hit && hasOutput then [read] else []))
    }
  }

  const NoCounts: Counters := Counters(0, 0, 0, 0, 0, [])

  /** The hits of every read of a run, in order, scored with the unset (empty) sequence
      name. */
  function HitsOf(matrices: seq<ScoreMatrix>, onlyScoreUnmapped: bool, run: seq<Read>): (hits: seq<nat>)
    requires AllValid(matrices)
    ensures |hits| == |run|
  {
    if |run| == 0 then []
    else
      var n := |run| - 1;
      HitsOf(matrices, onlyScoreUnmapped, run[..n]) + [ReadHits(matrices, onlyScoreUnmapped, run[n], "")]
  }

  /** The statistics after scoring a run of reads in order, read i producing hits[i] hits. */
  function Run(start: Counters, run: seq<Read>, hits: seq<nat>, hasOutput: bool): Counters
    requires |hits| == |run|
  {
    if |run| == 0 then start
    else
      var n := |run| - 1;
      Run(start, run[..n], hits[..n], hasOutput).Record(run[n], hits[n], hasOutput)
  }

  /** Hits over a run of reads. */
  function TotalHits(hits: seq<nat>): nat {
    if |hits| == 0 then 0 else TotalHits(hits[..|hits| - 1]) + hits[|hits| - 1]
  }

  /** The reads of a run that produced at least one hit, in order. */
  function HitReads(run: seq<Read>, hits: seq<nat>): (r: seq<Read>)
    requires |hits| == |run|
    ensures |r| <= |run|
  {
    if |run| == 0 then []
    else
      var n := |run| - 1;
      HitReads(run[..n], hits[..n]) + (if hits[n] > 0 then [run[n]] else [])
  }

  /** Unmapped reads among the hit reads of a run. */
  function UnmappedHitReads(run: seq<Read>, hits: seq<nat>): nat
    requires |hits| == |run|
  {
    if |run| == 0 then 0
    else
      var n := |run| - 1;
      UnmappedHitReads(run[..n], hits[..n]) + (if hits[n] > 0 && Unmapped(run[n]) then 1 else 0)
  }

  /** Each read adds exactly one to the read count, one to the unmapped count exactly
      when it is unmapped, and at most one to the hit-read counts, only when it had hits. */
  lemma {:induction false} RecordCounts(c: Counters, read: Read, hits: nat, hasOutput: bool)
    ensures var r := c.Record(read, hits, hasOutput);
            r.readCount == c.readCount + 1 &&
            (r.unmappedCount == c.unmappedCount + 1 <==> Unmapped(read)) &&
            (!Unmapped(read) ==> r.unmappedCount == c.unmappedCount) &&
            r.readHitCount <= c.readHitCount + 1 &&
            (r.readHitCount > c.readHitCount <==> r.totalHitCount > c.totalHitCount) &&
            (r.unmappedHitCount > c.unmappedHitCount <==> r.readHitCount > c.readHitCount && Unmapped(read)) &&
            |r.written| <= |c.written| + 1 &&
            (|r.written| > |c.written| <==> hasOutput && r.totalHitCount > c.totalHitCount)
  {
  }

  /** Scoring a read keeps the counter relations. */
  lemma {:induction false} RecordKeepsInvariant(c: Counters, read: Read, hits: nat, hasOutput: bool)
    requires c.Invariant(hasOutput)
    ensures c.Record(read, hits, hasOutput).Invariant(hasOutput)
  {
  }

  /** After a run from zeroed counters, the read count is the run's length and the
      unmapped count its number of unmapped reads. */
  lemma {:induction false} RunReadCounts(run: seq<Read>, hits: seq<nat>, hasOutput: bool)
    requires |hits| == |run|
    ensures var c := Run(NoCounts, run, hits, hasOutput);
            c.readCount == |run| && c.unmappedCount == UnmappedReads(run)
    decreases |run|
  {
    if |run| > 0 {
      var n := |run| - 1;
      var before := Run(NoCounts, run[..n], hits[..n], hasOutput);
      RunReadCounts(run[..n], hits[..n], hasOutput);
      assert Run(NoCounts, run, hits, hasOutput) == before.Record(run[n], hits[n], hasOutput);
    }
  }

  /** After a run from zeroed counters, the total hit count is the run's hits, the read
      hit count its number of reads with a hit, and the unmapped hit count the number of
      those that are unmapped. */
  lemma {:induction false} RunHitCounts(run: seq<Read>, hits: seq<nat>, hasOutput: bool)
    requires |hits| == |run|
    ensures var c := Run(NoCounts, run, hits, hasOutput);
            c.totalHitCount == TotalHits(hits) &&
            c.readHitCount == |HitReads(run, hits)| &&
            c.unmappedHitCount == UnmappedHitReads(run, hits)
    decreases |run|
  {
    if |run| > 0 {
      var n := |run| - 1;
      var before := Run(NoCounts, run[..n], hits[..n], hasOutput);
      RunHitCounts(run[..n], hits[..n], hasOutput);
      assert Run(NoCounts, run, hits, hasOutput) == before.Record(run[n], hits[n], hasOutput);
      assert |HitReads(run, hits)| == |HitReads(run[..n], hits[..n])| + (if hits[n] > 0 then 1 else 0);
    }
  }

  /** Every run from zeroed counters keeps the counter relations. */
  lemma {:induction false} RunKeepsInvariant(start: Counters, run: seq<Read>, hits: seq<nat>, hasOutput: bool)
    requires |hits| == |run| && start.Invariant(hasOutput)
    ensures Run(start, run, hits, hasOutput).Invariant(hasOutput)
    decreases |run|
  {
    if |run| > 0 {
      var n := |run| - 1;
      RunKeepsInvariant(start, run[..n], hits[..n], hasOutput);
      RecordKeepsInvariant(Run(start, run[..n], hits[..n], hasOutput), run[n], hits[n], hasOutput);
    }
  }

  /** After a run from zeroed counters, the written reads are the reads that produced a
      hit, in order, when an output is open, and none otherwise. */
  lemma {:induction false} RunWritten(run: seq<Read>, hits: seq<nat>, hasOutput: bool)
    requires |hits| == |run|
    ensures Run(NoCounts, run, hits, hasOutput).written == if hasOutput then HitReads(run, hits) else []
    decreases |run|
  {
    if |run| > 0 {
      var n := |run| - 1;
      var before := Run(NoCounts, run[..n], hits[..n], hasOutput);
      RunWritten(run[..n], hits[..n], hasOutput);
      assert Run(NoCounts, run, hits, hasOutput).written ==
             before.written + (if hits[n] > 0 && hasOutput then [run[n]] else []);
    }
  }

  /** Read i of a run contributes the hits of its own scans, or none when skipped. */
  lemma {:induction false} HitsOfAt(matrices: seq<ScoreMatrix>, onlyScoreUnmapped: bool, run: seq<Read>, i: nat)
    requires AllValid(matrices) && i < |run|
    ensures HitsOf(matrices, onlyScoreUnmapped, run)[i] == ReadHits(matrices, onlyScoreUnmapped, run[i], "")
    ensures !Scanned(onlyScoreUnmapped, run[i]) ==> HitsOf(matrices, onlyScoreUnmapped, run)[i] == 0
    decreases |run|
  {
    if i < |run| - 1 {
      HitsOfAt(matrices, onlyScoreUnmapped, run[..|run| - 1], i);
    }
  }

  /** The hits of the first m + 1 matrices: those of the first m, then those of matrix m. */
  lemma {:induction false} SequenceHitsStep(matrices: seq<ScoreMatrix>, bases: string, sequenceName: string, m: nat)
    requires AllValid(matrices) && m < |matrices|
    ensures SequenceHits(matrices[..m + 1], bases, sequenceName) ==
            SequenceHits(matrices[..m], bases, sequenceName) + CountHits(matrices[m].Calls(bases, sequenceName))
  {
    assert matrices[..m + 1][..m] == matrices[..m];
  }

  /** Scoring one more read of a run records that read's hits on top of the earlier ones. */
  lemma {:induction false} RunStep(matrices: seq<ScoreMatrix>, onlyScoreUnmapped: bool, start: Counters, run: seq<Read>, i: nat,
                hasOutput: bool)
    requires AllValid(matrices) && i < |run|
    ensures Run(start, run[..i + 1], HitsOf(matrices, onlyScoreUnmapped, run[..i + 1]), hasOutput) ==
            Run(start, run[..i], HitsOf(matrices, onlyScoreUnmapped, run[..i]), hasOutput)
              .Record(run[i], ReadHits(matrices, onlyScoreUnmapped, run[i], ""), hasOutput)
  {
    var prefix := run[..i + 1];
    assert prefix[..i] == run[..i];
    var hits := HitsOf(matrices, onlyScoreUnmapped, prefix);
    assert hits == HitsOf(matrices, onlyScoreUnmapped, run[..i]) + [ReadHits(matrices, onlyScoreUnmapped, run[i], "")];
    assert hits[..i] == HitsOf(matrices, onlyScoreUnmapped, run[..i]);
  }

  class BamScorer {
    const matrices: seq<ScoreMatrix>
    const onlyScoreUnmapped: bool
    /** Whether an output file is open. */
    const hasOutput: bool

    var readCount: nat
    var unmappedCount: nat
    var readHitCount: nat
    var unmappedHitCount: nat
    var totalHitCount: nat

    /** The buffer the bases of the current read are copied into. */
    var sequence: array<char>
    /** The reads written to the output, in order. */
    var written: seq<Read>

    function Counts(): Counters
      reads this
    {
      Counters(readCount, unmappedCount, readHitCount, unmappedHitCount, totalHitCount, written)
    }

    /** Valid matrices, and the counter relations that keep the summary's differences
        from wrapping. */
    predicate Valid()
      reads this
    {
      AllValid(matrices) && Counts().Invariant(hasOutput)
    }

    /** The summary's number of mapped reads. */
    function MappedReadCount(): (n: nat)
      reads this
      requires Valid()
      ensures n + unmappedCount == readCount
    {
      readCount - unmappedCount
    }

    /** The summary's number of mapped reads with a hit. */
    function MappedHitCount(): (n: nat)
      reads this
      requires Valid()
      ensures n + unmappedHitCount == readHitCount && n <= MappedReadCount()
    {
      readHitCount - unmappedHitCount
    }

    /** The constructor without a region file: zeroed counters, then every read scored. */
    constructor (matrices: seq<ScoreMatrix>, onlyScoreUnmapped: bool, hasOutput: bool, run: seq<Read>)
      requires AllValid(matrices)
      ensures Valid()
      ensures this.matrices == matrices && this.onlyScoreUnmapped == onlyScoreUnmapped
      ensures this.hasOutput == hasOutput
      ensures Counts() == Run(NoCounts, run, HitsOf(matrices, onlyScoreUnmapped, run), hasOutput)
    {
      this.matrices := matrices;
      this.onlyScoreUnmapped := onlyScoreUnmapped;
      this.hasOutput := hasOutput;
      readCount, unmappedCount, readHitCount, unmappedHitCount, totalHitCount := 0, 0, 0, 0, 0;
      sequence := new char[0];
      written := [];
      new;
      ScoreAllReads(run);
    }

    /** operator(): one consumer call; a hit adds one to the total hit count. */
    method Consume(call: ConsumerCall)
      modifies this`totalHitCount
      ensures totalHitCount == old(totalHitCount) + if IsHit(call) then 1 else 0
    {
      if call.score.PValueBelow(HitThreshold) {
        totalHitCount := totalHitCount + 1;
      }
    }

    /** Feeds consumer calls to Consume in order. */
    method ConsumeAll(calls: seq<ConsumerCall>)
      modifies this`totalHitCount
      ensures totalHitCount == old(totalHitCount) + CountHits(calls)
    {
      var c := 0;
      while c < |calls|
        invariant 0 <= c <= |calls|
        invariant totalHitCount == old(totalHitCount) + CountHits(calls[..c])
      {
        Consume(calls[c]);
        assert calls[..c + 1][..c] == calls[..c];
        c := c + 1;
      }
      assert calls[..c] == calls;
    }

    /** Scans a sequence with every matrix, feeding each window to Consume. */
    method ScanAll(bases: string, sequenceName: string)
      requires AllValid(matrices)
      modifies this`totalHitCount
      ensures totalHitCount == old(totalHitCount) + SequenceHits(matrices, bases, sequenceName)
    {
      var m := 0;
      while m < |matrices|
        invariant 0 <= m <= |matrices|
        invariant totalHitCount == old(totalHitCount) + SequenceHits(matrices[..m], bases, sequenceName)
      {
        var calls := matrices[m].Scan(bases, sequenceName);
        ConsumeAll(calls);
        SequenceHitsStep(matrices, bases, sequenceName, m);
        m := m + 1;
      }
      assert matrices[..m] == matrices;
    }

    /** Copies the bases of a read into the buffer, reallocating it when the length differs. */
    method Load(bases: string)
      modifies this`sequence, sequence
      ensures sequence[..] == bases
      ensures sequence == old(sequence) || fresh(sequence)
      ensures old(sequence.Length) == |bases| ==> sequence == old(sequence)
    {
      if sequence.Length != |bases| {
        sequence := new char[|bases|](_ => ' ');
      }
      var i := 0;
      while i < |bases|
        invariant 0 <= i <= |bases| == sequence.Length
        invariant forall k :: 0 <= k < i ==> sequence[k] == bases[k]
        modifies sequence
      {
        sequence[i] := bases[i];
        i := i + 1;
      }
    }

    /** score_read: counts the read, skips a mapped read in unmapped-only mode, and
        otherwise scans its bases and records whether it produced a hit. */
    method ScoreRead(read: Read, sequenceName: string)
      requires Valid()
      modifies this, sequence
      ensures Valid()
      ensures Counts() == old(Counts()).Record(read, ReadHits(matrices, onlyScoreUnmapped, read, sequenceName), hasOutput)
      ensures Scanned(onlyScoreUnmapped, read) ==> sequence[..] == read.bases
      ensures !Scanned(onlyScoreUnmapped, read) ==> sequence == old(sequence) && sequence[..] == old(sequence[..])
      ensures sequence == old(sequence) || fresh(sequence)
    {
      ghost var before := Counts();
      ghost var hits := ReadHits(matrices, onlyScoreUnmapped, read, sequenceName);
      RecordKeepsInvariant(before, read, hits, hasOutput);
      readCount := readCount + 1;
      if Unmapped(read) {
        unmappedCount := unmappedCount + 1;
      } else if onlyScoreUnmapped {
        assert hits == 0;
        assert Counts() == before.Record(read, hits, hasOutput);
        return;
      }
      assert hits == SequenceHits(matrices, read.bases, sequenceName);
      RecordHits(read, sequenceName);
      assert Counts() == before.Record(read, hits, hasOutput);
    }

    /** The scanning half of score_read: loads the bases, scans them with every matrix,
        and counts and writes the read if its scans added hits. */
    method RecordHits(read: Read, sequenceName: string)
      requires AllValid(matrices)
      modifies this`sequence, sequence, this`totalHitCount, this`readHitCount, this`unmappedHitCount,
               this`written
      ensures var hits := SequenceHits(matrices, read.bases, sequenceName);
              totalHitCount == old(totalHitCount) + hits &&
              readHitCount == old(readHitCount) + (if hits > 0 then 1 else 0) &&
              unmappedHitCount == old(unmappedHitCount) + (if hits > 0 && Unmapped(read) then 1 else 0) &&
              written == old(written) + (if hits > 0 && hasOutput then [read] else [])
      ensures sequence[..] == read.bases
      ensures sequence == old(sequence) || fresh(sequence)
    {
      Load(read.bases);
      var hitCountBeforeThisRead := totalHitCount;
      ScanAll(sequence[..], sequenceName);
      if totalHitCount > hitCountBeforeThisRead {
        readHitCount := readHitCount + 1;
        if Unmapped(read) {
          unmappedHitCount := unmappedHitCount + 1;
        }
        if hasOutput {
          written := written + [read];
        }
      }
    }

    /** score_all_reads: every read in file order, with the unset sequence name. */
    method ScoreAllReads(run: seq<Read>)
      requires Valid()
      modifies this, sequence
      ensures Valid()
      ensures Counts() == Run(old(Counts()), run, HitsOf(matrices, onlyScoreUnmapped, run), hasOutput)
    {
      var i := 0;
      while i < |run|
        invariant 0 <= i <= |run| && Valid()
        invariant sequence == old(sequence) || fresh(sequence)
        invariant Counts() == Run(old(Counts()), run[..i], HitsOf(matrices, onlyScoreUnmapped, run[..i]), hasOutput)
      {
        ScoreRead(run[i], "");
        RunStep(matrices, onlyScoreUnmapped, old(Counts()), run, i, hasOutput);
        i := i + 1;
      }
      assert run[..i] == run;
    }
  }
}
