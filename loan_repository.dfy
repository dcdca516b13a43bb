/**
  `FileBasedLoanRepository`: the loan repository as an object whose state,
  the repository root on disk, is updated in place by `store` and `approve`.
  Each method is proved against the functions of RepositorySpec.
*/
module LoanRepository {
  import opened Optional
  import opened JavaNumbers
  import opened RecordFiles
  import opened Loans
  import Spec = RepositorySpec

  class FileBasedLoanRepository {
    /** REPOSITORY_ROOT: the user's home directory followed by "/loan". */
    const root: string
    /** Whether the root directory exists. */
    var rootExists: bool
    /** The application held by the record file of each application number. */
    var records: map<Long, LoanApplication>

    function Model(): Spec.Repo
      reads this
    {
      Spec.Repo(rootExists, records)
    }

    ghost predicate Valid()
      reads this
    {
      Spec.Valid(Model())
    }

    /** A repository over the root directory as it is found on disk. */
    constructor (root: string, rootExists: bool, records: map<Long, LoanApplication>)
      requires Spec.Valid(Spec.Repo(rootExists, records))
      ensures Valid()
      ensures this.root == root && Model() == Spec.Repo(rootExists, records)
    {
      this.root := root;
      this.rootExists := rootExists;
      this.records := records;
    }

    /** `fetch(long)`: read the record file of `ticketId`. */
    method FetchNo(ticketId: Long) returns (r: Result<LoanApplication>)
      requires Valid()
      ensures r == Spec.FetchNo(Model(), ticketId)
      ensures r.Ok? ==> r.value.applicationNo == ticketId
    {
      if ticketId in records {
        r := Ok(records[ticketId]);
      } else {
        r := Err(ApplicationException(TICKET_NOT_FOUND));
      }
    }

    /** `fetch(String)`: parse the ticket as a `long`, then read its record file. */
    method Fetch(ticketId: string) returns (r: Result<LoanApplication>)
      requires Valid()
      ensures r == Spec.Fetch(Model(), ticketId)
      ensures r.Ok? ==> ParseLong(ticketId) == Some(r.value.applicationNo)
    {
      var parsed := ParseLong(ticketId);
      if parsed.None? {
        return Err(NumberFormatException(ticketId));
      }
      r := FetchNo(parsed.value);
    }

    /** `store`: create the root, then write the application into its record file. */
    method Store(application: LoanApplication, ioFailure: bool) returns (r: Result<Ticket>)
      requires Valid()
      modifies this
      ensures Valid()
      ensures Model() == Spec.Store(old(Model()), application, ioFailure).repo
      ensures r == Spec.Store(old(Model()), application, ioFailure).result
    {
      if ioFailure {
        return Err(ApplicationException(COULD_NOT_STORE));
      }
      rootExists := true;
      records := records[application.applicationNo := application];
      r := Ok(Ticket(application.applicationNo));
    }

    /** `approve`: fetch, mark approved, store back, return a ticket for the same number. */
    method Approve(ticketId: string, ioFailure: bool) returns (r: Result<Ticket>)
      requires Valid()
      modifies this
      ensures Valid()
      ensures Model() == Spec.Approve(old(Model()), ticketId, ioFailure).repo
      ensures r == Spec.Approve(old(Model()), ticketId, ioFailure).result
    {
      var fetched := Fetch(ticketId);
      if fetched.Err? {
        return Err(fetched.error);
      }
      var application := fetched.value.Approve();
      var stored := Store(application, ioFailure);
      if stored.Err? {
        return Err(stored.error);
      }
      r := Ok(Ticket(application.applicationNo));
    }

    /**
      `getNextId`: list the root's files through the `.loan` filter and
      return one more than their number, or 0 when the root is absent.
    */
    method GetNextId() returns (id: Long)
      requires Valid()
      ensures id == Spec.NextId(Model())
      ensures !rootExists ==> id == 0
      ensures rootExists && |records| < MAX_INT ==> id == |records| + 1
    {
      if !rootExists {
        return 0;
      }
      var count := LoanFileCount(root, records.Keys);
      id := ToInt32(count + 1);
      assert id == Spec.NextId(Model());
    }
  }

  /**
    Two submissions in a row, as the loan handler runs them against a
    repository whose stored numbers are dense: the second ticket is
    strictly greater than the first, and both are non-negative.
  */
  method TwoSubmissionsGetIncreasingIds(repo: FileBasedLoanRepository, contact: string, amount: int)
    returns (first: Long, second: Long)
    requires repo.Valid() && Spec.IdsDense(repo.Model()) && |repo.records| + 3 <= MAX_INT
    modifies repo
    ensures 0 <= first < second
    ensures Spec.IdsDense(repo.Model())
  {
    Spec.SubmitKeepsIdsDense(repo.Model(), contact, amount);
    Spec.NextIdIsFresh(repo.Model());
    first := repo.GetNextId();
    var t1 := repo.Store(LoanApplication(first, contact, amount, false), false);
    Spec.SubmitKeepsIdsDense(repo.Model(), contact, amount);
    second := repo.GetNextId();
    var t2 := repo.Store(LoanApplication(second, contact, amount, false), false);
  }

  /**
    A submission followed by a fetch of its ticket text, as the handler
    runs them: the record read back is the pending application just stored.
  */
  method SubmitThenFetch(root: string, rootExists: bool, records: map<Long, LoanApplication>, contact: string, amount: int)
    returns (ticket: Result<Ticket>, fetched: Result<LoanApplication>)
    requires Spec.Valid(Spec.Repo(rootExists, records)) && |records| < MAX_INT
    ensures ticket.Ok? && ticket.value.id >= 0
    ensures fetched == Ok(LoanApplication(ticket.value.id, contact, amount, false))
  {
    var repo := new FileBasedLoanRepository(root, rootExists, records);
    var id := repo.GetNextId();
    ticket := repo.Store(LoanApplication(id, contact, amount, false), false);
    Spec.FetchOfDecimal(repo.Model(), id);
    fetched := repo.Fetch(Decimal(ticket.value.id));
  }
}
