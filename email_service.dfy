/**
 * The notifier (app/services/email_service.py). Its only implementation
 * logs each message; the log is the outbox, in sending order.
 */
module EmailService {

  datatype Email = Email(to: string, subject: string, body: string)

  class LoggingEmailService {
    /** Every message handed to `send_email`, oldest first. */
    var log: seq<Email>

    constructor ()
      ensures log == []
    {
      log := [];
    }

    /** `send_email`: records recipient, subject and body; returns nothing and cannot fail. */
    method SendEmail(to: string, subject: string, body: string)
      modifies this
      ensures log == old(log) + [Email(to, subject, body)]
    {
      log := log + [Email(to, subject, body)];
    }
  }

  /** `get_email_service`: always a fresh logging notifier. */
  method GetEmailService() returns (service: LoggingEmailService)
    ensures fresh(service) && service.log == []
  {
    service := new LoggingEmailService();
  }
}
