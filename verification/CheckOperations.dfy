/** Checking a key/value history from end to end. */
module CheckOperations {
  import opened Linearizability
  import opened Entries
  import opened Kv
  import M = MakeEntries
  import P = Partition
  import opened CheckParallel
  import opened Reads

  type KvEntry = Entry<KvInput, KvOutput>

  /** The entry lists handed to the workers: one per key of the history. */
  ghost predicate Prepared(history: seq<Op>, l: seq<seq<KvEntry>>, keys: seq<string>, parts: seq<seq<Op>>) {
    && IsPartition(history, keys, parts)
    && |l| == |parts|
    && (forall i | 0 <= i < |l| :: WellFormed(l[i]) && M.SameStructure(parts[i], OpsOf(l[i])))
    && forall i | 0 <= i < |parts| :: parts[i] != []
  }

  lemma PartTimesOrdered(history: seq<Op>, key: string)
    requires TimesOrdered(history)
    ensures TimesOrdered(OfKey(history, key))
  {
    OfKeyFrom(history, key);
    var part := OfKey(history, key);
    forall x | 0 <= x < |part| ensures part[x].call <= part[x].ret {
      assert part[x] in history;
    }
  }

  method Prepare(history: seq<Op>) returns (l: seq<seq<KvEntry>>, ghost keys: seq<string>, ghost parts: seq<seq<Op>>)
    requires TimesOrdered(history)
    ensures Prepared(history, l, keys, parts)
    ensures history == [] <==> l == []
  {
    hide WellFormed, OfKey, M.SameStructure, TimesOrdered, M.SortedEntries;
    var partitions;
    partitions, keys := P.Split(history);
    parts := partitions;
    l := [];
    for i := 0 to |partitions|
      invariant |l| == i && forall j | 0 <= j < i :: WellFormed(l[j]) && M.SameStructure(parts[j], OpsOf(l[j]))
    {
      PartTimesOrdered(history, keys[i]);
      var entries := M.MakeEntries(partitions[i]);
      l := l + [entries];
    }
    OneListPerKey(history, l, keys, parts);
  }

  lemma OneListPerKey(history: seq<Op>, l: seq<seq<KvEntry>>, keys: seq<string>, parts: seq<seq<Op>>)
    requires Prepared(history, l, keys, parts)
    ensures history == [] <==> l == []
  {
    hide WellFormed, OfKey, M.SameStructure;
    if history != [] {
      assert history[0] in history;
    } else if l != [] {
      NoneOfKey(history, keys[0]);
    }
  }

  ghost function KvJob(l: seq<seq<KvEntry>>, verbose: bool, hasTimeout: bool): (job: Job<string, KvInput, KvOutput>)
    requires forall i | 0 <= i < |l| :: WellFormed(l[i])
    ensures ValidJob(job) && job.history == l && job.computeInfo == verbose && job.hasTimeout == hasTimeout
  {
    ShallowEqualRespectsStep(KvModel);
    Job(KvModel, l, verbose, hasTimeout)
  }

  /** All partitions are linearizable exactly when the whole history is, against the whole store. */
  lemma PartsTogether(history: seq<Op>, l: seq<seq<KvEntry>>, keys: seq<string>, parts: seq<seq<Op>>)
    requires TimesOrdered(history) && Prepared(history, l, keys, parts)
    ensures Linearizable(StoreModel, history) <==> forall i | 0 <= i < |l| :: Linearizable(KvModel, OpsOf(l[i]))
  {
    hide WellFormed, M.SameStructure, Linearization;
    Locality(history, keys, parts);
    forall i | 0 <= i < |l| ensures Linearizable(KvModel, parts[i]) <==> Linearizable(KvModel, OpsOf(l[i])) {
      forall o ensures Linearization(KvModel, parts[i], o) <==> Linearization(KvModel, OpsOf(l[i]), o) {
        M.SameLinearizations(KvModel, parts[i], OpsOf(l[i]), o);
      }
    }
  }

  /** Every finished check of a key/value history answers the question about the whole store:
      Ok only for linearizable histories, Illegal only for others, Unknown only after the timer
      fired; and linearizable means that in some order that keeps real time every get returns what
      was written before it.  */
  lemma CheckIsCorrect(
    history: seq<Op>, l: seq<seq<KvEntry>>, keys: seq<string>, parts: seq<seq<Op>>, verbose: bool, hasTimeout: bool, run: seq<State>)
    requires TimesOrdered(history) && Prepared(history, l, keys, parts)
    requires IsRun(KvJob(l, verbose, hasTimeout), run) && run[|run| - 1].phase.Done?
    ensures match Result(run[|run| - 1])
      case Ok => Linearizable(StoreModel, history)
      case Illegal => !Linearizable(StoreModel, history)
      case Unknown => hasTimeout
    ensures match Result(run[|run| - 1])
      case Ok => exists w :: ConsistentOrder(history, w)
      case Illegal => !exists w :: ConsistentOrder(history, w)
      case Unknown => true
  {
    hide Linearizable, IsRun, WellFormed, IsPartition, ConsistentOrder;
    var job := KvJob(l, verbose, hasTimeout);
    VerdictIsSound(job, run);
    assert forall i: nat | i < |l| :: PartOk(job, i) <==> Linearizable(KvModel, OpsOf(l[i]));
    PartsTogether(history, l, keys, parts);
    LinearizableMeansConsistent(history);
  }

  /** A check of a key/value history always finishes exactly when the history is not empty or there is a timer. */
  lemma CheckFinishes(history: seq<Op>, l: seq<seq<KvEntry>>, keys: seq<string>, parts: seq<seq<Op>>, verbose: bool, hasTimeout: bool)
    requires Prepared(history, l, keys, parts)
    ensures history != [] || hasTimeout <==>
      forall run: seq<State> | Maximal(KvJob(l, verbose, hasTimeout), run) :: run[|run| - 1].phase.Done?
  {
    hide ValidJob, Maximal, WellFormed, IsPartition;
    OneListPerKey(history, l, keys, parts);
    FinishesExactlyWhen(KvJob(l, verbose, hasTimeout));
    if history == [] && !hasTimeout {
      var run := NothingToCollect(KvJob(l, verbose, hasTimeout));
    }
  }
}
