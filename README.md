# Loan application repository

A model of `FileBasedLoanRepository`, the store behind a small loan-ticketing
service. The repository keeps one record file per loan application under a
root directory, named after the application number with the `.loan`
extension. It offers three operations:

- `fetch` reads an application by ticket;
- `store` writes or overwrites an application and returns a ticket for it;
- `approve` marks an application approved and writes it back.

It also hands out new application numbers with `getNextId`. That method
counts the `.loan` files in the root.

The model has six modules:

- `Optional`: a value that may be missing, used for what a failed parse returns.

- `JavaNumbers`: the Java `long` and `int` types, the decimal text of a
  `long`, and `Long.parseLong`.
- `RecordFiles`: the record-file path `root + "/" + n + ".loan"`, the
  `File.getName` of a path, and the `.loan` listing filter.
- `Loans`: the `LoanApplication` and `Ticket` records and the exceptions.
- `RepositorySpec`: the repository as a value `Repo(rootExists, records)`,
  each operation as a function from one such value to the next, and the
  lemmas about them: round trip, frame, errors, idempotence, allocation.
- `LoanRepository`: the class `FileBasedLoanRepository`. Its fields
  `rootExists` and `records` are updated in place by `Store` and
  `Approve`. `FetchNo`, `Fetch`, `Store` and `Approve` are each proved
  against the `RepositorySpec` function of the same name, and `GetNextId`
  against `RepositorySpec.NextId`. `GetNextId` counts the listing through
  the `.loan` filter (`RecordFiles.LoanFileCount`), as `FileBasedLoanRepository.getNextId` does. A lemma shows that this equals the number of
  records, because record paths are injective.

Two facts about the allocator are proved. From an absent root, sequential
submissions get the numbers 0, 2, 3, … (1 is skipped), and these keep
increasing. But when the stored numbers have a gap, the count-based id can
be one already in use, and a submission then overwrites that application
(`SparseIdsCollide`).

## Model

| member | source | states |
|---|---|---|
| JavaNumbers.ToInt32 | src/main/java/com/sap/loanserver/FileBasedLoanRepository.java:65 | the Java `int` result of `files.length + 1`: in range, congruent modulo 2^32, exact when no overflow |
| JavaNumbers.NaturalDigits | src/main/java/com/sap/loanserver/FileBasedLoanRepository.java:45 | the digits of a number in a file name are non-empty, all decimal digits, with no leading zero |
| JavaNumbers.Decimal | src/main/java/com/sap/loanserver/FileBasedLoanRepository.java:45 | the text of a `long` is non-empty, starts with '-' exactly for negatives, is otherwise digits, and has no leading zero ("7", never "07") |
| JavaNumbers.ParseLongOfDecimal | src/main/java/com/sap/loanserver/FileBasedLoanRepository.java:14-15 | `parseLong` of the decimal text of any `long` gives that `long` back |
| JavaNumbers.ParseLong | src/main/java/com/sap/loanserver/FileBasedLoanRepository.java:15 | `parseLong` succeeds exactly on an optional '-' or '+' followed by at least one digit whose signed value fits a `long`, and then returns that value; otherwise NumberFormatException |
| JavaNumbers.DecimalInjective | src/main/java/com/sap/loanserver/FileBasedLoanRepository.java:45 | distinct `long` values have distinct decimal texts |
| JavaNumbers.ParseLongIgnoresLeadingZero | src/main/java/com/sap/loanserver/FileBasedLoanRepository.java:14-15 | a ticket with a leading zero parses to the same number |
| RecordFiles.GetName | src/main/java/com/sap/loanserver/FileBasedLoanRepository.java:60-61 | a file's name contains no '/' and is a suffix of its path |
| RecordFiles.GetNameIsLastComponent | src/main/java/com/sap/loanserver/FileBasedLoanRepository.java:61 | the name is the whole text after the final '/': either a '/' comes just before it or it is the whole path |
| RecordFiles.GetNameAfterSeparator | src/main/java/com/sap/loanserver/FileBasedLoanRepository.java:45 | the name of `dir + "/" + name` is `name` whenever `name` has no '/' |
| RecordFiles.FileFromApplication | src/main/java/com/sap/loanserver/FileBasedLoanRepository.java:44-46 | the name of a record file is the decimal number followed by `.loan`, so the listing filter accepts it |
| RecordFiles.FileFromApplicationInjective | src/main/java/com/sap/loanserver/FileBasedLoanRepository.java:44-46 | two application numbers never share a record file |
| RecordFiles.Listing | src/main/java/com/sap/loanserver/FileBasedLoanRepository.java:57-58 | the root's listing holds the record file of every stored number, and every listed name ends in `.loan` |
| RecordFiles.LoanFiles | src/main/java/com/sap/loanserver/FileBasedLoanRepository.java:58-63 | the filter keeps exactly the listed files whose name ends in `.loan` |
| RecordFiles.ListingSize | src/main/java/com/sap/loanserver/FileBasedLoanRepository.java:57-63 | the root lists one file per stored application number |
| RecordFiles.ListingCount | src/main/java/com/sap/loanserver/FileBasedLoanRepository.java:57-65 | the `.loan` files counted by `getNextId` are exactly the stored applications |
| RecordFiles.LoanFileCount | src/main/java/com/sap/loanserver/FileBasedLoanRepository.java:57-65 | the length of the `.loan`-filtered listing that `getNextId` adds one to equals the number of stored applications |
| Loans.LoanApplication.Approve | src/main/java/com/sap/loanserver/FileBasedLoanRepository.java:51 | approving sets `approved` and keeps number, contact and amount |
| RepositorySpec.FetchNo | src/main/java/com/sap/loanserver/FileBasedLoanRepository.java:18-26 | a stored number reads its own record; a missing one fails with "Ticket not found" |
| RepositorySpec.Fetch | src/main/java/com/sap/loanserver/FileBasedLoanRepository.java:13-16 | unparsable text fails with NumberFormatException; parsable text ("+7", "007", "-0" included) reads the record of the parsed number, or fails with "Ticket not found" when there is none; a record read carries the number the ticket denotes |
| RepositorySpec.Store | src/main/java/com/sap/loanserver/FileBasedLoanRepository.java:29-42 | returns a ticket for the application's number, creates the root, makes that number read back the application, leaves every other number unchanged, keeps the invariant; an I/O failure commits nothing |
| RepositorySpec.Approve | src/main/java/com/sap/loanserver/FileBasedLoanRepository.java:49-54 | a failed fetch is returned with the state unchanged; when the fetch succeeds but the store fails, "Could not store application" is returned with the state unchanged; any failure commits nothing; the invariant is kept |
| RepositorySpec.NextId | src/main/java/com/sap/loanserver/FileBasedLoanRepository.java:56-65 | 0 without a root, else one more than the number of records |
| RepositorySpec.Submit | loanServer/src/test/java/com/sap/loanserver/LoanHandlerTest.java:115-139 | the handler's getNextId-then-store returns the next id and stores a pending application under it |
| RepositorySpec.FetchOfDecimal | src/main/java/com/sap/loanserver/FileBasedLoanRepository.java:14-19 | fetching the text of number n reads record n |
| RepositorySpec.FetchIgnoresLeadingZero | src/main/java/com/sap/loanserver/FileBasedLoanRepository.java:14-19 | "0" followed by the number reads the same record |
| RepositorySpec.StoreThenFetch | src/main/java/com/sap/loanserver/FileBasedLoanRepository.java:18-36 | fetching the ticket returned by store reads back exactly the stored application |
| RepositorySpec.StoreIdempotent | src/main/java/com/sap/loanserver/FileBasedLoanRepository.java:29-36 | storing an application twice leaves what storing it once leaves |
| RepositorySpec.ApproveMarksApproved | src/main/java/com/sap/loanserver/FileBasedLoanRepository.java:49-54 | approve on a stored number sets approved, keeps the other fields and every other record, returns a ticket for the same number |
| RepositorySpec.ApproveMissing | src/main/java/com/sap/loanserver/FileBasedLoanRepository.java:49-50 | approve on a number with no record fails with "Ticket not found" and changes nothing |
| RepositorySpec.ApproveIdempotent | src/main/java/com/sap/loanserver/FileBasedLoanRepository.java:49-53 | approving twice gives the same state and result as approving once |
| RepositorySpec.ApprovalIsOneWay | src/main/java/com/sap/loanserver/FileBasedLoanRepository.java:49-53 | approve never leaves an approved application unapproved |
| RepositorySpec.ApproveKeepsIdsDense | src/main/java/com/sap/loanserver/FileBasedLoanRepository.java:49-53 | approve keeps the set of stored numbers and their density, so submissions interleaved with approvals still get fresh ids |
| RepositorySpec.NextIdIsFresh | src/main/java/com/sap/loanserver/FileBasedLoanRepository.java:56-65 | while stored numbers lie in 0..count, the next id is non-negative and above every stored number |
| RepositorySpec.SubmitKeepsIdsDense | loanServer/src/test/java/com/sap/loanserver/LoanHandlerTest.java:115-139 | a submission adds one record under a fresh number, keeps the numbers dense, and raises the next id strictly |
| RepositorySpec.FirstSubmissionsFromAbsentRoot | src/main/java/com/sap/loanserver/FileBasedLoanRepository.java:56-65 | from an absent root the first three submissions get 0, 2 and 3 |
| RepositorySpec.SparseIdsCollide | src/main/java/com/sap/loanserver/FileBasedLoanRepository.java:56-65 | with only record 2 stored, the next id is 2 again and a submission overwrites that application |
| LoanRepository.FileBasedLoanRepository.constructor | src/main/java/com/sap/loanserver/FileBasedLoanRepository.java:8-11 | a repository over a root as found on disk |
| LoanRepository.FileBasedLoanRepository.FetchNo | src/main/java/com/sap/loanserver/FileBasedLoanRepository.java:18-26 | equals RepositorySpec.FetchNo on the current state; a record read has the requested number |
| LoanRepository.FileBasedLoanRepository.Fetch | src/main/java/com/sap/loanserver/FileBasedLoanRepository.java:13-16 | equals RepositorySpec.Fetch on the current state; a record read has the number the ticket parses to |
| LoanRepository.FileBasedLoanRepository.Store | src/main/java/com/sap/loanserver/FileBasedLoanRepository.java:28-42 | the new state and the result are those of RepositorySpec.Store on the old state |
| LoanRepository.FileBasedLoanRepository.Approve | src/main/java/com/sap/loanserver/FileBasedLoanRepository.java:48-54 | fetch, approve and store back: the new state and the result are those of RepositorySpec.Approve |
| LoanRepository.FileBasedLoanRepository.GetNextId | src/main/java/com/sap/loanserver/FileBasedLoanRepository.java:56-66 | counting the `.loan` listing gives 0 without a root, else the number of records plus one |
| LoanRepository.TwoSubmissionsGetIncreasingIds | loanServer/src/test/java/com/sap/loanserver/LoanHandlerTest.java:115-139 | two submissions in a row get non-negative, strictly increasing ids |
| LoanRepository.SubmitThenFetch | loanServer/src/test/java/com/sap/loanserver/LoanHandlerTest.java:71-93 | on any valid root, sparse or not, fetching a fresh submission's ticket reads the pending application with that number, contact and amount |

## Left out

- File system I/O (`mkdirs`, `FileOutputStream`, `Scanner`, `listFiles`) is modelled as the `rootExists` flag and the `records` map. The root path from `System.getProperty("user.home")` is a constructor parameter.
- Gson encoding and decoding is taken to round-trip exactly, so a record file holds its application as written.
- RepositorySpec.Store: an I/O failure is a boolean parameter, and a failed store commits nothing. The root that `mkdirs` may already have created is not modelled, nor an empty file left by a failed write.
- RepositorySpec.Valid and RepositorySpec.IdsDense: the root is assumed to hold only record files written by `store`. A foreign file ending in `.loan` would raise `getNextId`'s count.
- JavaNumbers.ParseLong: only ASCII digits are read. Java also accepts other Unicode decimal digits. A null ticket is not modelled.
- GetNextId: an I/O error that makes `listFiles` return null is not modelled. A root with more than 2^31 - 1 files cannot be listed into a Java array; the allocation lemmas require fewer.
- Loans.LoanApplication.Approve: the Java source of the `LoanApplication` class is not part of this model; it is modelled as a datatype with the four fields the repository reads and writes. `approve()` is assumed to set `approved` and change nothing else. `amount` is an `int` that the repository treats as opaque.
- Concurrency: calls are sequential. The race between two concurrent `getNextId` calls is not modelled.
- The HTTP handler `LoanHandler` is not part of this model: request parsing, amount validation and the "Incorrect parameters provided" answer. `Submit` models only the getNextId-then-store sequence that the tests exercise.
