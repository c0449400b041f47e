/** `EventBuffer` as written in src/maillog/event/buffer.py and, line for line
    the same, in src/maillog/event/event.py. `__post_init__` stores the restored
    list in an attribute `_data`, while `_persist`, `insert`, `get_all_messages`
    and `clear` all use `_event_buffer`, which only `clear` ever assigns. An
    attribute that was never assigned is `None` here; touching it is an
    `AttributeError`. `ConstructFixed` is the evidently intended constructor. */
module EventBuffer {
  import opened Wrappers
  import MessageBuffer

  type BufferFile<T> = MessageBuffer.BufferFile<T>
  type WriteOutcome = MessageBuffer.WriteOutcome

  datatype EventBufferError = NoAttribute | LoadFailed | PersistFailed

  /** The two list attributes of an instance and the buffer file. */
  datatype Instance<T> = Instance(dataAttr: Option<seq<T>>, eventBuffer: Option<seq<T>>, file: BufferFile<T>)

  /** The instance after an operation, and what the operation returned or raised. */
  datatype Step<T, R> = Step(instance: Instance<T>, outcome: Result<R, EventBufferError>)

  /** `__post_init__` as written: an absent file gives an instance whose
      `_event_buffer` is unset; an existing file is loaded into `_data` and then
      the log call reading `len(self._event_buffer)` raises. */
  function Construct<T>(file: BufferFile<T>): (r: Result<Instance<T>, EventBufferError>)
    ensures r.Success? <==> file.Missing?
    ensures r.Success? ==> r.value.eventBuffer.None? && r.value.dataAttr == Some([])
    ensures file.Stored? ==> r == Failure(NoAttribute)
    ensures file.Unreadable? ==> r == Failure(LoadFailed)
  {
    match file
    case Missing => Success(Instance(Some([]), None, file))
    case Stored(items) => Failure(NoAttribute)
    case Unreadable => Failure(LoadFailed)
  }

  /** The corrected constructor: the restored list goes into `_event_buffer`. */
  function ConstructFixed<T>(file: BufferFile<T>): (r: Result<Instance<T>, EventBufferError>)
    ensures r.Success? <==> !file.Unreadable?
    ensures r.Success? ==> r.value.eventBuffer.Some? && r.value.file == file
    ensures r.Success? && file.Stored? ==> r.value.eventBuffer == Some(file.items)
    ensures r.Success? && file.Missing? ==> r.value.eventBuffer == Some([])
  {
    match file
    case Missing => Success(Instance(None, Some([]), file))
    case Stored(items) => Success(Instance(None, Some(items), file))
    case Unreadable => Failure(LoadFailed)
  }

  /** `_persist`: the file is opened (and truncated) before `_event_buffer` is read. */
  function Persist<T>(i: Instance<T>, w: WriteOutcome): (r: Step<T, ()>)
    ensures r.instance.eventBuffer == i.eventBuffer && r.instance.dataAttr == i.dataAttr
    ensures r.outcome.Success? <==> (w.Written? && i.eventBuffer.Some?)
    ensures r.outcome.Success? ==> r.instance.file == MessageBuffer.Stored(i.eventBuffer.value)
    ensures w.OpenFailed? ==> r.instance.file == i.file
  {
    match w
    case OpenFailed => Step(i, Failure(PersistFailed))
    case DumpFailed => Step(i.(file := MessageBuffer.Unreadable), Failure(PersistFailed))
    case Written =>
      match i.eventBuffer
      case None => Step(i.(file := MessageBuffer.Unreadable), Failure(NoAttribute))
      case Some(events) => Step(i.(file := MessageBuffer.Stored(events)), Success(()))
  }

  /** `insert`: append to `_event_buffer`, then persist. */
  function Insert<T>(i: Instance<T>, e: T, w: WriteOutcome): (r: Step<T, ()>)
    ensures i.eventBuffer.None? ==> r == Step(i, Failure(NoAttribute))
    ensures i.eventBuffer.Some? ==> r.instance.eventBuffer == Some(i.eventBuffer.value + [e])
    ensures i.eventBuffer.Some? ==> (r.outcome.Success? <==> w.Written?)
  {
    match i.eventBuffer
    case None => Step(i, Failure(NoAttribute))
    case Some(events) => Persist(i.(eventBuffer := Some(events + [e])), w)
  }

  /** `get_all_messages`: the list, or `AttributeError` when it was never assigned. */
  function GetAll<T>(i: Instance<T>): (r: Result<seq<T>, EventBufferError>)
    ensures r.Success? <==> i.eventBuffer.Some?
  {
    match i.eventBuffer
    case None => Failure(NoAttribute)
    case Some(events) => Success(events)
  }

  /** `clear`: assign the empty list, then persist it. */
  function Clear<T>(i: Instance<T>, w: WriteOutcome): (r: Step<T, ()>)
    ensures r.instance.eventBuffer == Some([])
    ensures r.outcome.Success? <==> w.Written?
    ensures w.Written? ==> r.instance.file == MessageBuffer.Stored([])
  {
    Persist(i.(eventBuffer := Some([])), w)
  }

  /** On a freshly constructed instance `insert` and `get_all_messages` raise,
      while `clear` works (subject only to the write). */
  lemma FreshInstanceFails<T>(created: Instance<T>, e: T, w: WriteOutcome)
    requires Construct(MessageBuffer.Missing) == Success(created)
    ensures Insert(created, e, w).outcome == Failure(NoAttribute)
    ensures Insert(created, e, w).instance == created
    ensures GetAll(created) == Failure(NoAttribute)
    ensures Clear(created, w).outcome.Success? <==> w.Written?
  {
  }

  /** After a `clear`, successful or not, the instance behaves as a buffer:
      an insert appends and `get_all_messages` returns the list. */
  lemma ClearRepairsInstance<T>(i: Instance<T>, e: T, w1: WriteOutcome, w2: WriteOutcome)
    ensures var cleared := Clear(i, w1).instance;
      GetAll(Insert(cleared, e, w2).instance) == Success([e])
  {
    assert [] + [e] == [e];
  }

  /** View of an instance whose `_event_buffer` is set as a message buffer. */
  function AsBuffer<T>(i: Instance<T>): MessageBuffer.Buffer<T>
    requires i.eventBuffer.Some?
  {
    MessageBuffer.Buffer(i.eventBuffer.value, i.file)
  }

  /** Once `_event_buffer` is set, every operation does what the message
      buffer's does: same list, same file, same success. */
  lemma {:induction false} InitialisedMatchesMessageBuffer<T>(i: Instance<T>, e: T, w: WriteOutcome)
    requires i.eventBuffer.Some?
    ensures Insert(i, e, w).instance.eventBuffer.Some?
    ensures AsBuffer(Insert(i, e, w).instance) == MessageBuffer.Insert(AsBuffer(i), e, w).buffer
    ensures Insert(i, e, w).outcome.Success? == MessageBuffer.Insert(AsBuffer(i), e, w).outcome.Success?
    ensures AsBuffer(Clear(i, w).instance) == MessageBuffer.Clear(AsBuffer(i), w).buffer
    ensures GetAll(i) == Success(MessageBuffer.GetAll(AsBuffer(i)))
  {
    match w
    case Written =>
    case OpenFailed =>
    case DumpFailed =>
  }

  /** With the corrected constructor a fresh instance accepts inserts and
      returns them in order, and an existing file is restored. */
  lemma FixedConstructionWorks<T>(file: BufferFile<T>, e: T, w: WriteOutcome)
    requires !file.Unreadable?
    ensures ConstructFixed(file).Success?
    ensures var i := ConstructFixed(file).value;
      && Insert(i, e, w).instance.eventBuffer.Some?
      && GetAll(Insert(i, e, w).instance) == Success(
           (if file.Stored? then file.items else []) + [e])
  {
  }
}
