/** `MailScheduler.send_summary_mail` of src/maillog/mail/scheduler.py: read
    every buffered event in one buffer session, format them, mail the text,
    and on success empty the buffer in a second session.

    The code opens `EventBuffer()` as a context manager and calls
    `get_all_events`, neither of which `EventBuffer` defines; the cycle is
    modelled against the buffer interface of `MessageBuffer` (a session
    restores the buffer from its file, `get_all` reads, `clear` empties), as
    intended. Host name, date and subject are not modelled; the mailer is an
    outcome parameter. Other threads may insert events between the two
    sessions: `others` lists them in order. */
module Summary {
  import opened Wrappers
  import opened Events
  import opened MessageBuffer
  import Format

  /** Whether `mailer.send` returned or raised. */
  datatype MailOutcome = Delivered | SendRaised

  /** What one call leaves behind: the events read, the body handed to the
      mailer (none when the call never got that far), the buffer file, and
      whether an exception escaped the call. */
  datatype Cycle = Cycle(
    read: seq<MaillogEvent>,
    body: Option<string>,
    file: BufferFile<MaillogEvent>,
    raised: bool)

  function AllWritten(n: nat): (r: seq<WriteOutcome>)
    ensures |r| == n && forall i :: 0 <= i < n ==> r[i] == Written
  {
    seq(n, i => Written)
  }

  /** The file after other threads insert `others`, each insert persisting. A
      thread that cannot restore an unreadable file inserts nothing. */
  function InsertedMeanwhile(file: BufferFile<MaillogEvent>, others: seq<MaillogEvent>): (r: BufferFile<MaillogEvent>)
    ensures file.Unreadable? ==> r == file
    ensures others == [] ==> r == file
    ensures !file.Unreadable? && others != [] ==> r == Stored(Restore(file).value.data + others)
  {
    match Restore(file)
    case Failure(_) => file
    case Success(b) =>
      InsertsAccumulate(b, others, AllWritten(|others|));
      InsertAll(b, others, AllWritten(|others|)).file
  }

  /** `send_summary_mail` as written: the second session clears the whole buffer. */
  function SendSummaryMail(file: BufferFile<MaillogEvent>, others: seq<MaillogEvent>, mail: MailOutcome, w: WriteOutcome): (r: Cycle)
    ensures r.raised <==> file.Unreadable?
    ensures r.raised ==> r.body.None? && r.file == file
    ensures !r.raised ==> r.read == Restore(file).value.data && r.body == Some(Format.PrettyPrint(r.read))
    ensures mail.SendRaised? ==> r.file == InsertedMeanwhile(file, others)
    ensures r.file != InsertedMeanwhile(file, others) ==> mail.Delivered?
    ensures !r.raised && mail.Delivered? && w.Written? && !InsertedMeanwhile(file, others).Unreadable? ==> r.file == Stored([])
  {
    match Restore(file)
    case Failure(_) => Cycle([], None, file, true)
    case Success(b) =>
      var events := GetAll(b);
      var body := Format.PrettyPrint(events);
      var later := InsertedMeanwhile(file, others);
      if mail.SendRaised? then Cycle(events, Some(body), later, false)
      else
        match Restore(later)
        case Failure(_) => Cycle(events, Some(body), later, false)
        case Success(b2) => Cycle(events, Some(body), Clear(b2, w).buffer.file, false)
  }

  /** With nobody inserting meanwhile, a delivered summary carries everything
      that was buffered and leaves the buffer empty. */
  lemma {:induction false} QuietCycleMailsEverything(items: seq<MaillogEvent>)
    ensures var r := SendSummaryMail(Stored(items), [], Delivered, Written);
      r.read == items && r.body == Some(Format.PrettyPrint(items)) && r.file == Stored([])
  {
  }

  /** The read and the clear are separate sessions, so an event inserted in
      between is neither mailed nor kept. */
  lemma {:induction false} InterleavedEventLost(e1: MaillogEvent, e2: MaillogEvent)
    requires e1 != e2
    ensures var r := SendSummaryMail(Stored([e1]), [e2], Delivered, Written);
      && e2 !in r.read
      && r.file == Stored([])
  {
  }

  /** The second session removes only the events that were mailed. */
  function Drain(b: Buffer<MaillogEvent>, n: nat, w: WriteOutcome): (r: Step<MaillogEvent>)
    ensures n <= |b.data| ==> GetAll(r.buffer) == b.data[n..]
    ensures n > |b.data| ==> GetAll(r.buffer) == []
    ensures r.outcome.Success? <==> w.Written?
    ensures w.Written? ==> Persisted(r.buffer)
  {
    Persist(b.(data := if n <= |b.data| then b.data[n..] else []), w)
  }

  /** `send_summary_mail` with the clear limited to the mailed prefix. */
  function SendSummaryMailDraining(file: BufferFile<MaillogEvent>, others: seq<MaillogEvent>, mail: MailOutcome, w: WriteOutcome): (r: Cycle)
    ensures r.raised <==> file.Unreadable?
    ensures !r.raised ==> r.read == Restore(file).value.data && r.body == Some(Format.PrettyPrint(r.read))
    ensures mail.SendRaised? ==> r.file == InsertedMeanwhile(file, others)
  {
    match Restore(file)
    case Failure(_) => Cycle([], None, file, true)
    case Success(b) =>
      var events := GetAll(b);
      var body := Format.PrettyPrint(events);
      var later := InsertedMeanwhile(file, others);
      if mail.SendRaised? then Cycle(events, Some(body), later, false)
      else
        match Restore(later)
        case Failure(_) => Cycle(events, Some(body), later, false)
        case Success(b2) => Cycle(events, Some(body), Drain(b2, |events|, w).buffer.file, false)
  }

  /** No event is lost: after a delivered summary, what was mailed followed by
      what the buffer keeps is everything buffered before plus everything
      inserted meanwhile. */
  lemma {:induction false} DrainingLosesNothing(file: BufferFile<MaillogEvent>, others: seq<MaillogEvent>)
    requires !file.Unreadable?
    ensures var r := SendSummaryMailDraining(file, others, Delivered, Written);
      && r.file.Stored?
      && r.read + r.file.items == Restore(file).value.data + others
  {
    var b := Restore(file).value;
    if others == [] {
      assert b.data[|b.data|..] == [];
    } else {
      var b2 := Restore(InsertedMeanwhile(file, others)).value;
      assert b2.data[|b.data|..] == others;
    }
  }

  /** The two versions differ only in what the second session keeps: they read
      and mail the same, and agree whenever nobody inserted meanwhile. */
  lemma {:induction false} DrainingAgreesWhenQuiet(file: BufferFile<MaillogEvent>, mail: MailOutcome, w: WriteOutcome)
    ensures SendSummaryMailDraining(file, [], mail, w) == SendSummaryMail(file, [], mail, w)
  {
  }
}
