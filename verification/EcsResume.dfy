/** A scanner resumed from what earlier runs left on disk. */
module EcsResume {
  import opened Wrappers
  import opened Counting
  import opened EcsLog
  import opened EcsScan
  import opened EcsScanner
  import opened EcsRestart

  /** What the resumed scanner has once its run ended. */
  ghost predicate Resumed(d: Disk, end: State, status: Status, inputs: seq<int>) {
    && d.log <= end.log && end.addresses == AddressesOf(end.log)
    && end.processed == |set p | p in inputs && p <= end.lastPrefix|
    && (status == Completed || status == CompletedWithPending ==>
          end.processed == |inputs| && forall p :: p in inputs ==> p in end.pending || Served(end.log, p))
    && (status == Completed ==> forall p :: p in inputs ==> Served(end.log, p))
    && (status == CompletedWithPending ==> end.pending != {})
  }

  /** Resumes at any concurrency after any number of cut runs. Nothing logged is lost, a run
      that ends completed has every input served, and however the run ends, what it leaves on
      disk can be resumed again. */
  method ResumeAndRun(d: Disk, inputs: seq<int>, oracle: Oracle, concurrency: nat, limit: nat, budget: nat, ghost disks: seq<Disk>)
    returns (scanner: Scanner, ghost wasted: seq<int>)
    requires ScanInput(inputs) && UsableScopes(oracle) && concurrency >= 1 && limit >= 1
    requires CutRuns(disks, inputs) && disks[|disks| - 1] == d
    ensures fresh(scanner)
    ensures Resumed(d, scanner.Now(), scanner.status, inputs)
    ensures CutRuns(disks + [Disk(scanner.Now(), scanner.log)], inputs)
  {
    hide Finishes, CutRun, Resume, Served, CutRuns, RunFrom, AddressesOf;
    scanner := new Scanner(Resume(d));
    assert scanner.Now() == Resume(d) by { ResumedFailures(d); }
    wasted := scanner.Run(inputs, oracle, concurrency, limit, budget);
    RunLeaves(disks, inputs, oracle, limit, budget, scanner.Now(), wasted);
  }

  lemma ResumedFailures(d: Disk)
    ensures Resume(d).(failures := 0) == Resume(d) && Resume(d).failures == 0
  {
  }

  lemma RunLeaves(disks: seq<Disk>, inputs: seq<int>, oracle: Oracle, limit: nat, budget: nat, end: State, wasted: seq<int>)
    requires ScanInput(inputs) && CutRuns(disks, inputs) && UsableScopes(oracle)
    requires Refines(end, RunFrom(Resume(disks[|disks| - 1]), inputs, oracle, limit, budget), wasted, oracle)
    ensures Resumed(disks[|disks| - 1], end, StatusOf(Resume(disks[|disks| - 1]), inputs, oracle, limit, budget), inputs)
    ensures CutRuns(disks + [Disk(end, end.log)], inputs)
  {
    var d := disks[|disks| - 1];
    hide Finishes, Resume, Served, RunFrom, AddressesOf, AttemptsOf, ErrorsOf, Position;
    ProcessedCounts(disks, inputs, oracle, limit, budget);
    RunKeepsLog(disks, inputs, oracle, limit, budget);
    if Finishes(Resume(d), inputs, oracle, limit, budget) {
      CompletedCovers(disks, inputs, oracle, limit, budget);
    }
    var d' := Disk(end, end.log);
    assert CutAt(d, d', inputs, oracle, limit, budget, budget);
    assert CutRun(d, d', inputs);
    Extended(disks, d', inputs);
  }

  lemma RunKeepsLog(disks: seq<Disk>, inputs: seq<int>, oracle: Oracle, limit: nat, budget: nat)
    requires ScanInput(inputs) && CutRuns(disks, inputs) && UsableScopes(oracle)
    ensures var end := RunFrom(Resume(disks[|disks| - 1]), inputs, oracle, limit, budget);
            disks[|disks| - 1].log <= end.log && end.addresses == AddressesOf(end.log)
  {
    hide Finishes, RunFrom;
    RestartsConsistent(disks, inputs);
    RunConsistent(Resume(disks[|disks| - 1]), oracle, limit, budget, inputs);
  }

  lemma Extended(disks: seq<Disk>, d: Disk, inputs: seq<int>)
    requires CutRuns(disks, inputs) && CutRun(disks[|disks| - 1], d, inputs)
    ensures CutRuns(disks + [d], inputs)
  {
    hide CutRun;
    var all := disks + [d];
    forall i | 0 <= i < |all| - 1 ensures CutRun(all[i], all[i + 1], inputs) {
      assert i < |disks| - 1 ==> all[i] == disks[i] && all[i + 1] == disks[i + 1];
    }
  }
}
