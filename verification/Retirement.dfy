/** Bulk retirement: all-or-nothing validation, sequential sub-transactions that stop at the first
    failure, and a per-loan report. */
module Retirement {
  import opened Division
  import opened Outcomes
  import opened LoanIndex

  /** The columns of the loan table that retirement reads or writes, keyed by the internal id. */
  datatype Loan = Loan(contractLoanId: string, borrowerId: string, status: LoanStatus)

  datatype Target = Target(id: string, contractLoanId: string)

  datatype ChunkStatus = SUCCESS | FAILED | SKIPPED

  datatype ChunkResult = ChunkResult(loanIds: seq<string>, contractLoanIds: seq<string>, status: ChunkStatus)

  datatype Outcome = Retired | Failed | Skipped

  datatype LoanResult = LoanResult(loanId: string, status: Outcome)

  datatype Reason = NotFound | NotBorrower | NotActive(status: LoanStatus)

  datatype Summary = Summary(retired: nat, failed: nat, skipped: nat)

  datatype Response =
    | NotANonEmptyList
    | BlankId
    | BatchTooLarge(maxBatchSize: nat, submitted: nat)
    | DuplicateIds
    | Rejected(invalid: seq<(string, Reason)>)
    | Processed(code: nat, summary: Summary, results: seq<LoanResult>)

  /** Whether the k-th submitted sub-transaction is confirmed on-chain. */
  type Chain = nat -> bool

  // ---- Chunking ----------------------------------------------------------------------------

  /** Position at which chunk k starts. */
  function Start(k: nat, size: nat): nat {
    if k == 0 then 0 else Start(k - 1, size) + size
  }

  lemma {:induction false} StartIsProduct(k: nat, size: nat)
    requires size > 0
    ensures Start(k, size) == size * k
  {
    if k > 0 {
      StartIsProduct(k - 1, size);
      MultiplyMonotone(size, k, k);
    }
  }

  lemma BelowStart(p: nat, size: nat, f: nat)
    requires size > 0
    ensures p / size < f <==> p < Start(f, size)
  {
    StartIsProduct(f, size);
    QuotientBelow(p, size, f);
  }

  /** Position p belongs to the chunk p / size. */
  lemma ChunkOfPosition(k: nat, size: nat, p: nat)
    requires size > 0 && Start(k, size) <= p < Start(k, size) + size
    ensures p / size == k
  {
    BelowStart(p, size, k);
    BelowStart(p, size, k + 1);
  }

  /** The stretch of items that starts at Start(k), cut off at the end of the list. */
  function ChunkAt<T>(items: seq<T>, size: nat, k: nat): seq<T>
    requires Start(k, size) < |items|
  {
    items[Start(k, size) .. Min(Start(k, size) + size, |items|)]
  }

  ghost predicate FirstChunks<T>(items: seq<T>, size: nat, chunks: seq<seq<T>>) {
    forall k :: 0 <= k < |chunks| ==> Start(k, size) < |items| && chunks[k] == ChunkAt(items, size, k)
  }

  /** The chunks cover the list from the front to the end. */
  ghost predicate IsChunking<T>(items: seq<T>, size: nat, chunks: seq<seq<T>>) {
    FirstChunks(items, size, chunks) && |items| <= Start(|chunks|, size)
  }

  method ChunkArray<T>(items: seq<T>, size: nat) returns (chunks: seq<seq<T>>)
    requires size > 0
    ensures IsChunking(items, size, chunks)
  {
    chunks := [];
    var i := 0;
    while i < |items|
      invariant i == Start(|chunks|, size) && FirstChunks(items, size, chunks)
      decreases |items| - i
    {
      var piece := items[i..Min(i + size, |items|)];
      assert piece == ChunkAt(items, size, |chunks|);
      chunks := chunks + [piece];
      i := i + size;
    }
  }

  lemma {:induction false} StartOfNothing(k: nat)
    ensures Start(k, 0) == 0
  {
    if k > 0 { StartOfNothing(k - 1); }
  }

  /** The chunking loop reaches the end of a non-empty list exactly for a positive size; the
      configuration also accepts 0. */
  lemma ChunkingEndsIff(n: nat, size: nat)
    requires n > 0
    ensures (exists k: nat :: n <= Start(k, size)) <==> size > 0
  {
    if size > 0 {
      StartIsProduct(n, size);
      MultiplyMonotone(n, 1, size);
      assert n <= Start(n, size);
    } else {
      forall k: nat ensures Start(k, size) < n { StartOfNothing(k); }
    }
  }

  /** Number of chunks of a list of n. */
  function TotalChunks(n: nat, size: nat): nat
    requires size > 0
  {
    if n == 0 then 0 else (n - 1) / size + 1
  }

  lemma ChunkingSize<T>(items: seq<T>, size: nat, chunks: seq<seq<T>>)
    requires size > 0 && IsChunking(items, size, chunks)
    ensures |chunks| == TotalChunks(|items|, size)
  {
    if chunks != [] {
      assert chunks[|chunks| - 1] == ChunkAt(items, size, |chunks| - 1);
      ChunkOfPosition(|chunks| - 1, size, |items| - 1);
    }
  }

  // ---- Submission --------------------------------------------------------------------------

  function Ids(ts: seq<Target>): seq<string> {
    seq(|ts|, i requires 0 <= i < |ts| => ts[i].id)
  }

  function ContractIds(ts: seq<Target>): seq<string> {
    seq(|ts|, i requires 0 <= i < |ts| => ts[i].contractLoanId)
  }

  /** Index of the first sub-transaction that fails among the first n, or n if none does. */
  function FirstFailure(chain: Chain, n: nat): (f: nat)
    ensures f <= n && (forall k :: 0 <= k < f ==> chain(k)) && (f < n ==> !chain(f))
  {
    if n == 0 then 0
    else
      var f := FirstFailure(chain, n - 1);
      if f < n - 1 then f else if chain(n - 1) then n else n - 1
  }

  function StatusOf(k: nat, f: nat): ChunkStatus {
    if k < f then SUCCESS else if k == f then FAILED else SKIPPED
  }

  /** The first sub-transaction of the batch that fails, or the number of sub-transactions. */
  function BatchFailure(chain: Chain, n: nat, size: nat): nat
    requires size > 0
  {
    FirstFailure(chain, TotalChunks(n, size))
  }

  /** One result per chunk, in order: the chunk's ids, and SUCCESS before the first failure, FAILED
      there, SKIPPED after it. */
  ghost predicate IsSubmission(loans: seq<Target>, size: nat, f: nat, results: seq<ChunkResult>)
    requires size > 0
  {
    && |results| == TotalChunks(|loans|, size) && |loans| <= Start(|results|, size)
    && forall k :: 0 <= k < |results| ==>
         Start(k, size) < |loans|
         && var chunk := ChunkAt(loans, size, k);
            results[k] == ChunkResult(Ids(chunk), ContractIds(chunk), StatusOf(k, f))
  }

  /** Chunks are submitted in order until one fails; the rest are reported as skipped. */
  method RetireLoansOnChain(loans: seq<Target>, maxOpsPerChunk: nat, chain: Chain) returns (results: seq<ChunkResult>)
    requires maxOpsPerChunk > 0
    ensures IsSubmission(loans, maxOpsPerChunk, BatchFailure(chain, |loans|, maxOpsPerChunk), results)
  {
    var chunks := ChunkArray(loans, maxOpsPerChunk);
    ChunkingSize(loans, maxOpsPerChunk, chunks);
    results := [];
    var aborted := false;
    ghost var f := BatchFailure(chain, |loans|, maxOpsPerChunk);
    for k := 0 to |chunks|
      invariant |results| == k && aborted == (f < k)
      invariant forall j :: 0 <= j < k ==>
        results[j] == ChunkResult(Ids(chunks[j]), ContractIds(chunks[j]), StatusOf(j, f))
    {
      var loanIds, contractLoanIds := Ids(chunks[k]), ContractIds(chunks[k]);
      if aborted {
        results := results + [ChunkResult(loanIds, contractLoanIds, SKIPPED)];
      } else if chain(k) {
        results := results + [ChunkResult(loanIds, contractLoanIds, SUCCESS)];
      } else {
        results := results + [ChunkResult(loanIds, contractLoanIds, FAILED)];
        aborted := true;
      }
    }
  }

  /** The result of the chunk that loan p falls into carries its two ids at its place. */
  lemma SubmissionCarriesIds(loans: seq<Target>, size: nat, f: nat, results: seq<ChunkResult>, p: nat, k: nat)
    requires size > 0 && IsSubmission(loans, size, f, results) && p < |loans| && k == p / size
    ensures k < |results| && Start(k, size) <= p
    ensures var chunk, q := results[k], p - Start(k, size);
      && q < |chunk.loanIds| == |chunk.contractLoanIds|
      && chunk.loanIds[q] == loans[p].id && chunk.contractLoanIds[q] == loans[p].contractLoanId
  {
    BelowStart(p, size, |results|);
    BelowStart(p, size, k);
    BelowStart(p, size, k + 1);
    ChunkHolds(loans, size, k, p);
  }

  lemma ChunkHolds(loans: seq<Target>, size: nat, k: nat, p: nat)
    requires Start(k, size) <= p < |loans| && p < Start(k + 1, size)
    ensures var chunk, q := ChunkAt(loans, size, k), p - Start(k, size);
      && q < |chunk| == |Ids(chunk)| == |ContractIds(chunk)|
      && Ids(chunk)[q] == loans[p].id && ContractIds(chunk)[q] == loans[p].contractLoanId
  {
  }

  // ---- The controller -----------------------------------------------------------------------

  function OutcomeOf(s: ChunkStatus): Outcome {
    match s
    case SUCCESS => Retired
    case FAILED => Failed
    case SKIPPED => Skipped
  }

  /** Why a requested loan may not be retired by this user, if so. */
  function Objection(loans: map<string, Loan>, userId: string, id: string): Option<Reason> {
    if id !in loans then Some(NotFound)
    else if loans[id].borrowerId != userId then Some(NotBorrower)
    else if loans[id].status != Active then Some(NotActive(loans[id].status))
    else None
  }

  function Objections(loans: map<string, Loan>, userId: string, ids: seq<string>): seq<(string, Reason)> {
    if ids == [] then []
    else
      var last := ids[|ids| - 1];
      var o := Objection(loans, userId, last);
      Objections(loans, userId, ids[..|ids| - 1]) + if o.Some? then [(last, o.value)] else []
  }

  /** A batch is accepted exactly when no requested loan raises an objection. */
  lemma {:induction false} AcceptedIff(loans: map<string, Loan>, userId: string, ids: seq<string>)
    ensures Objections(loans, userId, ids) == []
      <==> forall i :: 0 <= i < |ids| ==>
             ids[i] in loans && loans[ids[i]].borrowerId == userId && loans[ids[i]].status == Active
  {
    if ids != [] {
      var n := |ids| - 1;
      AcceptedIff(loans, userId, ids[..n]);
      assert forall i :: 0 <= i < n ==> ids[..n][i] == ids[i];
    }
  }

  /** Each objection, and none else: a requested id with the reason that applies to it. */
  lemma {:induction false} ObjectionsIff(loans: map<string, Loan>, userId: string, ids: seq<string>, id: string, r: Reason)
    ensures (id, r) in Objections(loans, userId, ids) <==>
      && id in ids
      && match r
         case NotFound => id !in loans
         case NotBorrower => id in loans && loans[id].borrowerId != userId
         case NotActive(st) =>
           id in loans && loans[id].borrowerId == userId && loans[id].status == st && st != Active
  {
    if ids != [] {
      ObjectionsIff(loans, userId, ids[..|ids| - 1], id, r);
      assert id in ids <==> id in ids[..|ids| - 1] || id == ids[|ids| - 1];
    }
  }

  predicate Retirable(loans: map<string, Loan>, userId: string, id: string) {
    id in loans && loans[id].borrowerId == userId && loans[id].status == Active
  }

  /** The requested ids that may not be retired, in request order. */
  function Offending(loans: map<string, Loan>, userId: string, ids: seq<string>): seq<string> {
    if ids == [] then []
    else (if Retirable(loans, userId, ids[0]) then [] else [ids[0]]) + Offending(loans, userId, ids[1..])
  }

  function ReportedIds(errors: seq<(string, Reason)>): seq<string> {
    seq(|errors|, i requires 0 <= i < |errors| => errors[i].0)
  }

  lemma {:induction false} OffendingAppend(loans: map<string, Loan>, userId: string, ids: seq<string>, last: string)
    ensures Offending(loans, userId, ids + [last])
      == Offending(loans, userId, ids) + if Retirable(loans, userId, last) then [] else [last]
  {
    if ids == [] {
      assert ids + [last] == [last];
    } else {
      assert (ids + [last])[1..] == ids[1..] + [last];
      OffendingAppend(loans, userId, ids[1..], last);
    }
  }

  /** The reported ids are the offending ids of the request, in request order, one report for each. */
  lemma {:induction false} ObjectionsInOrder(loans: map<string, Loan>, userId: string, ids: seq<string>)
    ensures ReportedIds(Objections(loans, userId, ids)) == Offending(loans, userId, ids)
  {
    if ids != [] {
      var prior, last := ids[..|ids| - 1], ids[|ids| - 1];
      ObjectionsInOrder(loans, userId, prior);
      assert ids == prior + [last];
      OffendingAppend(loans, userId, prior, last);
    }
  }

  /** The per-loan report: request order, and each loan's fate decided by the position of its chunk
      against the first failing one. */
  ghost predicate IsReport(ids: seq<string>, size: nat, f: nat, results: seq<LoanResult>)
    requires size > 0
  {
    && |results| == |ids|
    && forall p :: 0 <= p < |ids| ==> results[p] == LoanResult(ids[p], OutcomeOf(StatusOf(p / size, f)))
  }

  function MarkRepaid(loans: map<string, Loan>, ids: seq<string>): map<string, Loan> {
    map id | id in loans :: if id in ids then loans[id].(status := Repaid) else loans[id]
  }

  function CountOutcome(results: seq<LoanResult>, o: Outcome): nat {
    if results == [] then 0
    else CountOutcome(results[..|results| - 1], o) + if results[|results| - 1].status == o then 1 else 0
  }

  lemma {:induction false} OutcomesAddUp(results: seq<LoanResult>)
    ensures CountOutcome(results, Retired) + CountOutcome(results, Failed) + CountOutcome(results, Skipped) == |results|
  {
    if results != [] { OutcomesAddUp(results[..|results| - 1]); }
  }

  /** The three counts follow from the length, the chunk size and the first failing chunk. */
  lemma {:induction false} ReportCounts(ids: seq<string>, size: nat, f: nat, results: seq<LoanResult>)
    requires size > 0 && IsReport(ids, size, f, results)
    ensures CountOutcome(results, Retired) == Min(Start(f, size), |ids|)
    ensures CountOutcome(results, Failed) == Min(Start(f + 1, size), |ids|) - Min(Start(f, size), |ids|)
  {
    if ids != [] {
      var n := |ids| - 1;
      assert IsReport(ids[..n], size, f, results[..n]);
      ReportCounts(ids[..n], size, f, results[..n]);
      StartIsProduct(f, size);
      StartIsProduct(f + 1, size);
      BelowStart(n, size, f);
      BelowStart(n, size, f + 1);
    }
  }

  /** Statuses read SUCCESS, then at most one failed chunk, then SKIPPED. */
  lemma ReportShape(ids: seq<string>, size: nat, f: nat, results: seq<LoanResult>, p: nat, q: nat)
    requires size > 0 && IsReport(ids, size, f, results) && p < q < |ids|
    ensures results[q].status == Retired ==> results[p].status == Retired
    ensures results[p].status == Skipped ==> results[q].status == Skipped
    ensures results[p].status == Failed && results[q].status == Failed ==> q - p < size
  {
    BelowStart(p, size, f);
    BelowStart(q, size, f);
    BelowStart(p, size, f + 1);
    BelowStart(q, size, f + 1);
  }

  ghost predicate NoDuplicates(ids: seq<string>) {
    forall i, j :: 0 <= i < j < |ids| ==> ids[i] != ids[j]
  }

  /** The size test on the set of ids detects exactly the duplicates. */
  lemma {:induction false} SetSizeDetectsDuplicates(ids: seq<string>)
    ensures |set id | id in ids| <= |ids|
    ensures |set id | id in ids| == |ids| <==> NoDuplicates(ids)
  {
    if ids != [] {
      var n := |ids| - 1;
      var rest, last := ids[..n], ids[n];
      SetSizeDetectsDuplicates(rest);
      assert ids == rest + [last];
      assert (set id | id in ids) == (set id | id in rest) + {last};
      if last in rest {
        var i :| 0 <= i < n && rest[i] == last;
        assert ids[i] == ids[n];
      } else {
        DuplicatesExtend(rest, last);
      }
    }
  }

  lemma DuplicatesExtend(rest: seq<string>, last: string)
    requires last !in rest
    ensures NoDuplicates(rest + [last]) <==> NoDuplicates(rest)
  {
    if NoDuplicates(rest + [last]) {
      forall i, j | 0 <= i < j < |rest| ensures rest[i] != rest[j] {
        assert (rest + [last])[i] != (rest + [last])[j];
      }
    }
  }

  /** The white space and line terminators that trimming removes. */
  predicate IsSpace(c: char) {
    || c in {' ', '\t', '\n', '\r', '\U{0B}', '\U{0C}', '\U{A0}', '\U{1680}', '\U{202F}', '\U{205F}', '\U{3000}'}
    || c in {'\U{2028}', '\U{2029}', '\U{FEFF}'} || '\U{2000}' <= c <= '\U{200A}'
  }

  predicate Blank(id: string) {
    forall i :: 0 <= i < |id| ==> IsSpace(id[i])
  }

  function TrimStart(id: string): string {
    if id != [] && IsSpace(id[0]) then TrimStart(id[1..]) else id
  }

  function TrimEnd(id: string): string {
    if id != [] && IsSpace(id[|id| - 1]) then TrimEnd(id[..|id| - 1]) else id
  }

  /** An id is blank exactly when trimming leaves nothing of it. */
  lemma {:induction false} BlankIff(id: string)
    ensures Blank(id) <==> |TrimEnd(TrimStart(id))| == 0
  {
    StartKeepsFirst(id);
    if TrimStart(id) != [] { EndKeepsFirst(TrimStart(id)); }
  }

  lemma {:induction false} StartKeepsFirst(id: string)
    ensures Blank(id) <==> TrimStart(id) == []
    ensures TrimStart(id) != [] ==> !IsSpace(TrimStart(id)[0])
  {
    if id != [] && IsSpace(id[0]) {
      StartKeepsFirst(id[1..]);
      assert forall i :: 0 < i < |id| ==> id[i] == id[1..][i - 1];
    }
  }

  lemma {:induction false} EndKeepsFirst(id: string)
    requires id != [] && !IsSpace(id[0])
    ensures TrimEnd(id) != []
  {
    if IsSpace(id[|id| - 1]) { EndKeepsFirst(id[..|id| - 1]); }
  }

  /** What the endpoint answers when validation passes. */
  ghost predicate IsOutcome(r: Response, ids: seq<string>, size: nat, f: nat)
    requires size > 0
  {
    && r.Processed? && IsReport(ids, size, f, r.results)
    && r.summary == Summary(
         CountOutcome(r.results, Retired), CountOutcome(r.results, Failed), CountOutcome(r.results, Skipped))
    && r.code == (if f == TotalChunks(|ids|, size) then 200 else 207)
  }

  function RetiredIds(ids: seq<string>, size: nat, f: nat): seq<string> {
    ids[..Min(Start(f, size), |ids|)]
  }

  /** Committing chunk k after the chunks before it. */
  lemma MarkChunk(loans: map<string, Loan>, ids: seq<string>, size: nat, k: nat)
    requires Start(k, size) < |ids|
    ensures MarkRepaid(MarkRepaid(loans, RetiredIds(ids, size, k)), ChunkAt(ids, size, k))
      == MarkRepaid(loans, RetiredIds(ids, size, k + 1))
  {
    assert RetiredIds(ids, size, k) + ChunkAt(ids, size, k) == RetiredIds(ids, size, k + 1);
  }

  /** Exactly the retired loans become REPAID; every other row is untouched. */
  lemma OnlyRetiredChange(loans: map<string, Loan>, ids: seq<string>, size: nat, f: nat, results: seq<LoanResult>, id: string)
    requires size > 0 && IsReport(ids, size, f, results) && id in loans
    ensures MarkRepaid(loans, RetiredIds(ids, size, f))[id]
      == if LoanResult(id, Retired) in results then loans[id].(status := Repaid) else loans[id]
  {
    var m := Min(Start(f, size), |ids|);
    forall p | 0 <= p < |ids| ensures results[p].loanId == ids[p] && (results[p].status == Retired <==> p < m) {
      BelowStart(p, size, f);
    }
    if LoanResult(id, Retired) in results {
      var p :| 0 <= p < |results| && results[p] == LoanResult(id, Retired);
      assert ids[..m][p] == id;
    }
  }

  /** A batch is fully retired exactly when no sub-transaction failed. */
  lemma AllRetiredIff(ids: seq<string>, size: nat, f: nat, results: seq<LoanResult>)
    requires size > 0 && IsReport(ids, size, f, results) && f <= TotalChunks(|ids|, size)
    ensures CountOutcome(results, Failed) == 0 && CountOutcome(results, Skipped) == 0
      <==> f == TotalChunks(|ids|, size)
  {
    ReportCounts(ids, size, f, results);
    OutcomesAddUp(results);
    if ids != [] {
      BelowStart(|ids| - 1, size, f);
    }
  }

  /** What a processed batch answers: counts that follow from the first failing sub-transaction and add up
      to the batch, and code 200 exactly when nothing failed or was skipped, otherwise 207. */
  lemma ResponseIs(r: Response, ids: seq<string>, size: nat, f: nat)
    requires size > 0 && f <= TotalChunks(|ids|, size) && IsOutcome(r, ids, size, f)
    ensures r.summary.retired == Min(Start(f, size), |ids|)
    ensures r.summary.failed == Min(Start(f + 1, size), |ids|) - Min(Start(f, size), |ids|)
    ensures r.summary.retired + r.summary.failed + r.summary.skipped == |ids| == |r.results|
    ensures r.code == if r.summary.failed == 0 && r.summary.skipped == 0 then 200 else 207
  {
    ReportCounts(ids, size, f, r.results);
    OutcomesAddUp(r.results);
    AllRetiredIff(ids, size, f, r.results);
  }

  class RetirementController {
    const maxBatchSize: nat
    const maxOpsPerTx: nat
    var loans: map<string, Loan>

    constructor (maxBatchSize: nat, maxOpsPerTx: nat, loans: map<string, Loan>)
      ensures this.maxBatchSize == maxBatchSize && this.maxOpsPerTx == maxOpsPerTx && this.loans == loans
    {
      this.maxBatchSize, this.maxOpsPerTx, this.loans := maxBatchSize, maxOpsPerTx, loans;
    }

    method Validate(userId: string, ids: seq<string>) returns (errors: seq<(string, Reason)>)
      ensures errors == Objections(loans, userId, ids)
    {
      errors := [];
      for i := 0 to |ids|
        invariant errors == Objections(loans, userId, ids[..i])
      {
        var id := ids[i];
        assert ids[..i + 1][..i] == ids[..i];
        if id !in loans {
          errors := errors + [(id, NotFound)];
        } else if loans[id].borrowerId != userId {
          errors := errors + [(id, NotBorrower)];
        } else if loans[id].status != Active {
          errors := errors + [(id, NotActive(loans[id].status))];
        }
      }
      assert ids[..|ids|] == ids;
    }

    /** Commit the confirmed chunks to the table and report every loan. */
    method Settle(chunkResults: seq<ChunkResult>, ghost ids: seq<string>, ghost size: nat, ghost f: nat)
      returns (results: seq<LoanResult>)
      requires size > 0 && f <= |chunkResults| && |ids| <= Start(|chunkResults|, size)
      requires forall k :: 0 <= k < |chunkResults| ==>
        && Start(k, size) < |ids|
        && chunkResults[k].loanIds == ChunkAt(ids, size, k)
        && chunkResults[k].status == StatusOf(k, f)
      modifies this
      ensures IsReport(ids, size, f, results)
      ensures loans == MarkRepaid(old(loans), RetiredIds(ids, size, f))
    {
      results := [];
      assert MarkRepaid(loans, []) == loans;
      for k := 0 to |chunkResults|
        invariant IsReport(ids[..Min(Start(k, size), |ids|)], size, f, results)
        invariant loans == MarkRepaid(old(loans), RetiredIds(ids, size, Min(k, f)))
      {
        var chunk := chunkResults[k];
        if chunk.status == SUCCESS {
          MarkChunk(old(loans), ids, size, k);
          loans := MarkRepaid(loans, chunk.loanIds);
        }
        var more := ReportChunk(chunk.loanIds, OutcomeOf(chunk.status));
        ReportExtends(ids, size, f, k, results, more);
        results := results + more;
      }
      assert ids[..|ids|] == ids;
    }

    method BulkRetireLoans(userId: string, loanIds: seq<string>, chain: Chain) returns (r: Response)
      requires maxOpsPerTx > 0
      modifies this
      ensures loanIds == [] ==> r == NotANonEmptyList
      ensures loanIds != [] ==>
        if exists i :: 0 <= i < |loanIds| && Blank(loanIds[i]) then r == BlankId
        else if |loanIds| > maxBatchSize then r == BatchTooLarge(maxBatchSize, |loanIds|)
        else if !NoDuplicates(loanIds) then r == DuplicateIds
        else if Objections(old(loans), userId, loanIds) != [] then r == Response.Rejected(Objections(old(loans), userId, loanIds))
        else
          && IsOutcome(r, loanIds, maxOpsPerTx, BatchFailure(chain, |loanIds|, maxOpsPerTx))
          && loans == MarkRepaid(old(loans), RetiredIds(loanIds, maxOpsPerTx, BatchFailure(chain, |loanIds|, maxOpsPerTx)))
      ensures !r.Processed? ==> loans == old(loans)
    {
      if |loanIds| == 0 { return NotANonEmptyList; }
      if exists i :: 0 <= i < |loanIds| && Blank(loanIds[i]) { return BlankId; }
      if |loanIds| > maxBatchSize { return BatchTooLarge(maxBatchSize, |loanIds|); }
      SetSizeDetectsDuplicates(loanIds);
      if |set id | id in loanIds| != |loanIds| { return DuplicateIds; }
      var errors := Validate(userId, loanIds);
      if |errors| > 0 { return Response.Rejected(errors); }
      AcceptedIff(loans, userId, loanIds);
      r := Submit(loanIds, chain);
    }

    /** Submission, bookkeeping and summary of a validated batch. */
    method Submit(loanIds: seq<string>, chain: Chain) returns (r: Response)
      requires maxOpsPerTx > 0 && forall i :: 0 <= i < |loanIds| ==> loanIds[i] in loans
      modifies this
      ensures var f := BatchFailure(chain, |loanIds|, maxOpsPerTx);
        IsOutcome(r, loanIds, maxOpsPerTx, f) && loans == MarkRepaid(old(loans), RetiredIds(loanIds, maxOpsPerTx, f))
    {
      var targets := seq(|loanIds|, i requires 0 <= i < |loanIds| && loanIds[i] in loans reads this =>
        Target(loanIds[i], loans[loanIds[i]].contractLoanId));
      var chunkResults := RetireLoansOnChain(targets, maxOpsPerTx, chain);
      ghost var f := BatchFailure(chain, |loanIds|, maxOpsPerTx);
      forall k | 0 <= k < |chunkResults| ensures chunkResults[k].loanIds == ChunkAt(loanIds, maxOpsPerTx, k) {
        assert Ids(ChunkAt(targets, maxOpsPerTx, k)) == ChunkAt(loanIds, maxOpsPerTx, k);
      }
      var results := Settle(chunkResults, loanIds, maxOpsPerTx, f);
      var summary := Summary(
        CountOutcome(results, Retired), CountOutcome(results, Failed), CountOutcome(results, Skipped));
      AllRetiredIff(loanIds, maxOpsPerTx, f, results);
      var allRetired := summary.failed == 0 && summary.skipped == 0;
      r := Processed(if allRetired then 200 else 207, summary, results);
    }
  }

  method ReportChunk(loanIds: seq<string>, outcome: Outcome) returns (more: seq<LoanResult>)
    ensures |more| == |loanIds| && forall i :: 0 <= i < |loanIds| ==> more[i] == LoanResult(loanIds[i], outcome)
  {
    more := [];
    for i := 0 to |loanIds|
      invariant |more| == i && forall j :: 0 <= j < i ==> more[j] == LoanResult(loanIds[j], outcome)
    {
      more := more + [LoanResult(loanIds[i], outcome)];
    }
  }

  lemma ReportExtends(ids: seq<string>, size: nat, f: nat, k: nat, results: seq<LoanResult>, more: seq<LoanResult>)
    requires size > 0 && Start(k, size) < |ids|
    requires IsReport(ids[..Min(Start(k, size), |ids|)], size, f, results)
    requires var piece := ChunkAt(ids, size, k);
      |more| == |piece| && forall i :: 0 <= i < |piece| ==> more[i] == LoanResult(piece[i], OutcomeOf(StatusOf(k, f)))
    ensures IsReport(ids[..Min(Start(k + 1, size), |ids|)], size, f, results + more)
  {
    var s := Start(k, size);
    var all := ids[..Min(Start(k + 1, size), |ids|)];
    forall p | 0 <= p < |all|
      ensures (results + more)[p] == LoanResult(all[p], OutcomeOf(StatusOf(p / size, f)))
    {
      if p < s {
        assert (results + more)[p] == results[p] && ids[..s][p] == all[p];
      } else {
        ChunkOfPosition(k, size, p);
        assert (results + more)[p] == more[p - s];
      }
    }
  }
}
