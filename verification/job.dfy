/**
 The job runner `wrap`: read the token, resolve the recipients, run the
 command, and send every recipient one message saying whether the command
 raised and how many whole seconds it took.
 */
module Job {
  import opened Wrappers
  import opened Text
  import opened ConfigFile
  import opened Resolution

  /** How the wrapped command ended: `check_call` returned, or it raised an
      `Exception` (non-zero exit status or failure to start), which the
      handler at line 49 catches. */
  datatype Outcome = Completed | Raised

  const FinishedPrefix: string := "job finished, took "
  const FailedPrefix: string := "job failed, took "
  const SecondsSuffix: string := " seconds"

  function OutcomePrefix(outcome: Outcome): string
  {
    match outcome
    case Completed => FinishedPrefix
    case Raised => FailedPrefix
  }

  /** The f-string of lines 52 and 57; a reader can recover from it which
      way the job ended and how many seconds it took. */
  function NotificationText(outcome: Outcome, elapsed: nat): (text: string)
    ensures ParseNotification(text) == Some(Notification(outcome, elapsed))
  {
    NotificationRoundTrip(outcome, elapsed);
    OutcomePrefix(outcome) + Decimal(elapsed) + SecondsSuffix
  }

  /** What a notification tells its reader. */
  datatype Notification = Notification(outcome: Outcome, elapsed: nat)

  /** Reads a notification text back; `None` for any other text. */
  function ParseNotification(text: string): Option<Notification>
  {
    if |text| < |SecondsSuffix| || text[|text| - |SecondsSuffix|..] != SecondsSuffix then None
    else
      var body := text[..|text| - |SecondsSuffix|];
      if |body| >= |FinishedPrefix| && body[..|FinishedPrefix|] == FinishedPrefix then
        match ParseDecimal(body[|FinishedPrefix|..])
        case Some(n) => Some(Notification(Completed, n))
        case None => None
      else if |body| >= |FailedPrefix| && body[..|FailedPrefix|] == FailedPrefix then
        match ParseDecimal(body[|FailedPrefix|..])
        case Some(n) => Some(Notification(Raised, n))
        case None => None
      else None
  }

  /** An outcome's prefix, the rendered seconds and the suffix parse back to
      that outcome and those seconds. */
  lemma NotificationRoundTrip(outcome: Outcome, elapsed: nat)
    ensures ParseNotification(OutcomePrefix(outcome) + Decimal(elapsed) + SecondsSuffix) == Some(Notification(outcome, elapsed))
  {
    var digits := Decimal(elapsed);
    var text := OutcomePrefix(outcome) + digits + SecondsSuffix;
    var prefix := OutcomePrefix(outcome);
    assert text[|text| - |SecondsSuffix|..] == SecondsSuffix;
    var body := text[..|text| - |SecondsSuffix|];
    assert body == prefix + digits;
    assert body[..|prefix|] == prefix;
    assert body[|prefix|..] == digits;
    DecimalRoundTrip(elapsed);
    if outcome == Raised {
      assert body[5] == 'a';
      assert FinishedPrefix[5] == 'i';
    }
  }

  /** Different outcomes or durations give different texts. */
  lemma NotificationTextInjective(o1: Outcome, n1: nat, o2: Outcome, n2: nat)
    requires NotificationText(o1, n1) == NotificationText(o2, n2)
    ensures o1 == o2 && n1 == n2
  {
  }

  /** One outbound `bot.send_message(uid, msg)`. */
  datatype Message = Message(to: Value, text: string)

  /** The loop of `send_message`: one send per id, in order. */
  function Broadcast(ids: seq<Value>, text: string): (sent: seq<Message>)
    ensures |sent| == |ids|
    ensures forall i :: 0 <= i < |ids| ==> sent[i] == Message(ids[i], text)
    decreases |ids|
  {
    if |ids| == 0 then []
    else [Message(ids[0], text)] + Broadcast(ids[1..], text)
  }

  /** Why `wrap` stopped before running the command: `config['token']`
      raised `KeyError`, or no requested alias resolved. */
  datatype WrapError = MissingToken | NoRecipients

  /** A completed run of `wrap`: the credential the bot was built with, the
      recipients announced on the console, and the messages sent. */
  datatype JobRun = JobRun(token: Value, recipients: Recipients, sent: seq<Message>)

  /** `wrap`, with the command's outcome and the elapsed whole seconds given.
      A `Failure` means the command never ran and nothing was sent. */
  function Wrap(config: Config, users: seq<string>, outcome: Outcome, elapsed: nat): (r: Result<JobRun, WrapError>)
    ensures r == Failure(MissingToken) <==> TokenKey !in config
    ensures r == Failure(NoRecipients) <==> TokenKey in config && forall a :: a in users ==> !Resolves(config, a)
    ensures r.Success? ==> r.value.token == config[TokenKey]
    ensures r.Success? ==> Resolve(config, users) == Success(r.value.recipients)
    ensures r.Success? ==> |r.value.sent| == |r.value.recipients.ids| >= 1
    ensures r.Success? ==> forall i :: 0 <= i < |r.value.sent| ==>
      && r.value.sent[i].to == r.value.recipients.ids[i]
      && r.value.sent[i].text == NotificationText(outcome, elapsed)
  {
    if TokenKey !in config then Failure(MissingToken)
    else
      match Resolve(config, users)
      case Failure(_) => Failure(NoRecipients)
      case Success(recipients) =>
        Success(JobRun(config[TokenKey], recipients, Broadcast(recipients.ids, NotificationText(outcome, elapsed))))
  }

  /** Two requested aliases configured with the same id are two recipients:
      that id is sent the notification twice. */
  lemma SharedIdNotifiedTwice(config: Config, a: string, b: string, outcome: Outcome, elapsed: nat)
    requires TokenKey in config && a != b
    requires Resolves(config, a) && Resolves(config, b) && config[a] == config[b]
    ensures var r := Wrap(config, [a, b], outcome, elapsed);
      && r.Success?
      && r.value.sent == [Message(config[a], NotificationText(outcome, elapsed)), Message(config[a], NotificationText(outcome, elapsed))]
  {
    AllResolveDistinct(config, [a, b]);
    var r := Wrap(config, [a, b], outcome, elapsed);
    assert |r.value.sent| == 2;
    assert r.value.recipients.ids[1] == config[[a, b][1]];
  }
}
