/**
 * The two things the mailer asks of the Outlook automation layer:
 * the display names of the session's accounts (get_outlook_accounts) and
 * sending one message with one attachment (send_email). Outlook itself is
 * not modelled: what it does when asked to send is an input (ClientResponse).
 */
module Outlook {
  import opened Wrappers

  /** An account of the Outlook session; the mailer only ever looks at its display name. */
  datatype Account = Account(displayName: string)

  /** The arguments of one send_email call. */
  datatype Message = Message(accountName: string, to: string, subject: string, body: string, attachment: string)

  /**
   * What Outlook does with one send request: it goes through, or one of the
   * automation calls (Dispatch, CreateItem, Attachments.Add, Send, ...) raises.
   */
  datatype ClientResponse = Accepted | Raised(error: string)

  /** get_outlook_accounts: the display names of the session's accounts, in session order. */
  method GetOutlookAccounts(session: seq<Account>) returns (names: seq<string>)
    ensures |names| == |session|
    ensures forall i :: 0 <= i < |session| ==> names[i] == session[i].displayName
  {
    names := [];
    for i := 0 to |session|
      invariant |names| == i
      invariant forall j :: 0 <= j < i ==> names[j] == session[j].displayName
    {
      names := names + [session[i].displayName];
    }
  }

  /**
   * The generator passed to `next` in send_email: the position of the FIRST
   * account whose display name is `name`, or None where `next` raises StopIteration.
   */
  function FirstNamed(session: seq<Account>, name: string): (r: Option<nat>)
    ensures r.Some? ==> r.value < |session| && session[r.value].displayName == name
    ensures r.Some? ==> forall j :: 0 <= j < r.value ==> session[j].displayName != name
    ensures r.None? <==> forall j :: 0 <= j < |session| ==> session[j].displayName != name
  {
    if session == [] then None
    else if session[0].displayName == name then Some(0)
    else match FirstNamed(session[1..], name)
      case None => None
      case Some(j) => Some(j + 1)
  }

  /**
   * send_email: True exactly when Outlook accepted the message and an account
   * with the requested display name exists; every exception, including the
   * StopIteration of a display name that matches no account, becomes False.
   */
  function SendEmail(session: seq<Account>, msg: Message, response: ClientResponse): (ok: bool)
    ensures ok <==> response == Accepted && exists i :: 0 <= i < |session| && session[i].displayName == msg.accountName
  {
    response.Accepted? && FirstNamed(session, msg.accountName).Some?
  }

  /**
   * The account a message is sent from is the first one carrying the selected
   * display name: it is the operator's choice k exactly when no earlier account
   * shares that display name.
   */
  lemma SenderIsFirstWithName(session: seq<Account>, k: nat)
    requires k < |session|
    ensures FirstNamed(session, session[k].displayName).Some?
    ensures FirstNamed(session, session[k].displayName).value <= k
    ensures FirstNamed(session, session[k].displayName) == Some(k)
        <==> forall j :: 0 <= j < k ==> session[j].displayName != session[k].displayName
  {
  }

  /** Two accounts named alike: choosing the second one sends from the first. */
  lemma DuplicateNameSendsFromFirst()
    ensures var session := [Account("team@example.org"), Account("team@example.org")];
      FirstNamed(session, session[1].displayName) == Some(0)
  {
  }
}
