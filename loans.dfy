/** The records the repository stores and hands back, and the failures it reports. */
module Loans {
  import opened JavaNumbers

  /**
    A submitted loan request. The repository treats `contact` and `amount`
    as opaque; `approved` is false until the application is approved.
  */
  datatype LoanApplication = LoanApplication(applicationNo: Long, contact: string, amount: int, approved: bool)
  {
    /** `LoanApplication.approve()`, taken to set the approval flag and nothing else. */
    function Approve(): (a: LoanApplication)
      ensures a.approved
      ensures a.applicationNo == applicationNo && a.contact == contact && a.amount == amount
    {
      this.(approved := true)
    }
  }

  /** The handle returned to a caller: the application number alone. */
  datatype Ticket = Ticket(id: Long)

  const TICKET_NOT_FOUND: string := "Ticket not found"
  const COULD_NOT_STORE: string := "Could not store application"

  /** The exceptions the repository lets escape. */
  datatype Error =
    | ApplicationException(message: string)
    | NumberFormatException(input: string)

  datatype Result<+T> = Ok(value: T) | Err(error: Error)
}
