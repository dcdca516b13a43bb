/**
  The loan repository as a value: whether its root directory exists and the
  application stored in the record file of each application number. Every
  operation of the repository is a function from one such value to the next,
  and the properties the repository promises are lemmas about them.
*/
module RepositorySpec {
  import opened JavaNumbers
  import opened Loans
  import opened Optional

  /**
    `records[n]` is the application that the record file of number `n`
    holds (the JSON encoding is taken to round-trip exactly).
  */
  datatype Repo = Repo(rootExists: bool, records: map<Long, LoanApplication>)

  /** The state after an operation and what the operation returned or threw. */
  datatype Step<+T> = Step(repo: Repo, result: Result<T>)

  /** A root that does not exist holds no files, and each record file holds the application it is named after. */
  predicate Valid(r: Repo) {
    && (!r.rootExists ==> r.records == map[])
    && forall n :: n in r.records ==> r.records[n].applicationNo == n
  }

  /** `fetch(long)`: read the record file of `applicationNo`. */
  function FetchNo(r: Repo, applicationNo: Long): (res: Result<LoanApplication>)
    ensures res.Ok? <==> applicationNo in r.records
    ensures res.Ok? ==> res.value == r.records[applicationNo]
    ensures res.Err? ==> res.error == ApplicationException(TICKET_NOT_FOUND)
    ensures Valid(r) && res.Ok? ==> res.value.applicationNo == applicationNo
  {
    if applicationNo in r.records then Ok(r.records[applicationNo])
    else Err(ApplicationException(TICKET_NOT_FOUND))
  }

  /** `fetch(String)`: parse the ticket as a decimal `long`, then read that record. */
  function Fetch(r: Repo, ticketId: string): (res: Result<LoanApplication>)
    ensures ParseLong(ticketId).None? ==> res == Err(NumberFormatException(ticketId))
    ensures ParseLong(ticketId).Some? ==> res == FetchNo(r, ParseLong(ticketId).value)
    ensures Valid(r) && res.Ok? ==> ParseLong(ticketId) == Some(res.value.applicationNo)
  {
    match ParseLong(ticketId)
    case None => Err(NumberFormatException(ticketId))
    case Some(n) => FetchNo(r, n)
  }

  /**
    `store`: create the root and write the application into the record file
    of its number, replacing what was there. `ioFailure` stands for the
    environment refusing the write, which `FileBasedLoanRepository.store`
    reports as "Could not store application".
  */
  function Store(r: Repo, application: LoanApplication, ioFailure: bool): (s: Step<Ticket>)
    ensures ioFailure ==> s == Step(r, Err(ApplicationException(COULD_NOT_STORE)))
    ensures !ioFailure ==> s.result == Ok(Ticket(application.applicationNo)) && s.repo.rootExists
    ensures !ioFailure ==> FetchNo(s.repo, application.applicationNo) == Ok(application)
    ensures !ioFailure ==> forall m :: m != application.applicationNo ==> FetchNo(s.repo, m) == FetchNo(r, m)
    ensures Valid(r) ==> Valid(s.repo)
  {
    if ioFailure then Step(r, Err(ApplicationException(COULD_NOT_STORE)))
    else
      var no := application.applicationNo;
      Step(Repo(true, r.records[no := application]), Ok(Ticket(no)))
  }

  /** `approve`: fetch the application, mark it approved, store it back. */
  function Approve(r: Repo, ticketId: string, ioFailure: bool): (s: Step<Ticket>)
    ensures Fetch(r, ticketId).Err? ==> s == Step(r, Err(Fetch(r, ticketId).error))
    ensures Fetch(r, ticketId).Ok? && ioFailure ==> s == Step(r, Err(ApplicationException(COULD_NOT_STORE)))
    ensures s.result.Err? ==> s.repo == r
    ensures Valid(r) ==> Valid(s.repo)
  {
    match Fetch(r, ticketId)
    case Err(e) => Step(r, Err(e))
    case Ok(application) =>
      var stored := Store(r, application.Approve(), ioFailure);
      if stored.result.Err? then Step(stored.repo, Err(stored.result.error))
      else Step(stored.repo, Ok(Ticket(application.applicationNo)))
  }

  /**
    `getNextId`: 0 when the root does not exist, otherwise one more than the
    number of record files, computed in Java `int` arithmetic.
  */
  function NextId(r: Repo): (id: Long)
    ensures !r.rootExists ==> id == 0
    ensures r.rootExists && |r.records| < MAX_INT ==> id == |r.records| + 1
  {
    if !r.rootExists then 0 else ToInt32(|r.records| + 1)
  }

  // ---------------------------------------------------------------------
  // fetch

  /** The ticket text a caller is given for number `n` reads back record `n`. */
  lemma FetchOfDecimal(r: Repo, n: Long)
    ensures Fetch(r, Decimal(n)) == FetchNo(r, n)
  {
    ParseLongOfDecimal(n);
  }

  /** A ticket with leading zeros reads the same record as the plain number. */
  lemma FetchIgnoresLeadingZero(r: Repo, n: Long)
    requires n >= 0
    ensures Fetch(r, "0" + Decimal(n)) == FetchNo(r, n)
  {
    ParseLongIgnoresLeadingZero(n);
  }

  // ---------------------------------------------------------------------
  // store

  /** What `store` wrote is what `fetch` with the returned ticket reads back. */
  lemma StoreThenFetch(r: Repo, application: LoanApplication)
    ensures var s := Store(r, application, false);
      && s.result.Ok?
      && Fetch(s.repo, Decimal(s.result.value.id)) == Ok(application)
  {
    FetchOfDecimal(Store(r, application, false).repo, application.applicationNo);
  }

  /** Storing the same application twice leaves the same repository as storing it once. */
  lemma StoreIdempotent(r: Repo, application: LoanApplication)
    ensures var once := Store(r, application, false);
      Store(once.repo, application, false) == once
  {
  }

  // ---------------------------------------------------------------------
  // approve

  /**
    Approving a stored application sets its flag, keeps its other fields and
    every other record, and returns a ticket for the same number.
  */
  lemma ApproveMarksApproved(r: Repo, ticketId: string, n: Long)
    requires Valid(r) && ParseLong(ticketId) == Some(n) && n in r.records
    ensures var s := Approve(r, ticketId, false);
      && s.result == Ok(Ticket(n))
      && n in s.repo.records
      && s.repo.records[n] == r.records[n].(approved := true)
      && forall m :: m != n ==> FetchNo(s.repo, m) == FetchNo(r, m)
  {
  }

  /** Approving a number with no record fails with "Ticket not found" and changes nothing. */
  lemma ApproveMissing(r: Repo, ticketId: string, ioFailure: bool)
    requires ParseLong(ticketId).Some? && ParseLong(ticketId).value !in r.records
    ensures Approve(r, ticketId, ioFailure) == Step(r, Err(ApplicationException(TICKET_NOT_FOUND)))
  {
  }

  /** Approving twice leaves the same repository, and returns the same, as approving once. */
  lemma ApproveIdempotent(r: Repo, ticketId: string)
    requires Valid(r)
    ensures var once := Approve(r, ticketId, false);
      Approve(once.repo, ticketId, false) == once
  {
  }

  /** Approval is one way: no approved application is ever left unapproved by `approve`. */
  lemma ApprovalIsOneWay(r: Repo, ticketId: string, ioFailure: bool, m: Long)
    requires m in r.records && r.records[m].approved
    ensures var s := Approve(r, ticketId, ioFailure);
      m in s.repo.records && s.repo.records[m].approved
  {
  }

  /**
    Approving rewrites a record under its own number: the stored numbers stay
    the same, so an interleaved approve never disturbs the allocator.
  */
  lemma ApproveKeepsIdsDense(r: Repo, ticketId: string, ioFailure: bool)
    requires IdsDense(r)
    ensures Approve(r, ticketId, ioFailure).repo.records.Keys == r.records.Keys
    ensures IdsDense(Approve(r, ticketId, ioFailure).repo)
  {
  }

  // ---------------------------------------------------------------------
  // getNextId

  /**
    The stored numbers are at least 0 and at most the number of records:
    what sequential submissions starting from an absent root keep true.
  */
  predicate IdsDense(r: Repo) {
    && Valid(r)
    && forall n :: n in r.records ==> 0 <= n <= |r.records|
  }

  /**
    A submission as the loan handler performs it: take `getNextId`, build a
    pending application with that number and store it.
  */
  function Submit(r: Repo, contact: string, amount: int): (s: Step<Ticket>)
    ensures s.result == Ok(Ticket(NextId(r)))
    ensures FetchNo(s.repo, NextId(r)) == Ok(LoanApplication(NextId(r), contact, amount, false))
  {
    Store(r, LoanApplication(NextId(r), contact, amount, false), false)
  }

  /** While the stored numbers are dense, the next id is above every stored number. */
  lemma NextIdIsFresh(r: Repo)
    requires IdsDense(r) && |r.records| < MAX_INT
    ensures NextId(r) >= 0
    ensures forall n :: n in r.records ==> n < NextId(r)
  {
  }

  /**
    A submission on dense numbers returns the next id as its ticket, adds one
    record without touching the others, keeps the numbers dense, and moves
    the next id strictly up: sequential submissions get increasing ids.
  */
  lemma SubmitKeepsIdsDense(r: Repo, contact: string, amount: int)
    requires IdsDense(r) && |r.records| + 2 <= MAX_INT
    ensures var s := Submit(r, contact, amount);
      && s.result == Ok(Ticket(NextId(r)))
      && NextId(r) !in r.records
      && |s.repo.records| == |r.records| + 1
      && IdsDense(s.repo)
      && NextId(r) < NextId(s.repo)
  {
  }

  /** From an absent root the first three submissions get 0, 2 and 3: the count skips 1. */
  lemma FirstSubmissionsFromAbsentRoot(contact: string, amount: int)
    ensures var r0 := Repo(false, map[]);
      var s1 := Submit(r0, contact, amount);
      var s2 := Submit(s1.repo, contact, amount);
      var s3 := Submit(s2.repo, contact, amount);
      && s1.result == Ok(Ticket(0))
      && s2.result == Ok(Ticket(2))
      && s3.result == Ok(Ticket(3))
  {
  }

  /**
    The count-based id is not fresh when the stored numbers have a gap:
    with only record 2 in the root, `getNextId` returns 2 again and a
    submission overwrites the application stored there.
  */
  lemma SparseIdsCollide(contact: string, amount: int)
    ensures var earlier := LoanApplication(2, "", 0, true);
      var r := Repo(true, map[2 := earlier]);
      && Valid(r)
      && NextId(r) == 2 && 2 in r.records
      && FetchNo(Submit(r, contact, amount).repo, 2) == Ok(LoanApplication(2, contact, amount, false))
  {
  }
}
