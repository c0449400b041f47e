/** The message record and the file-backed message buffer of
    src/maillog/message.py, as a state machine. The buffer is generic in its
    element type: the same code stores `Message`s for the dict-based server and
    is the interface the event handler and summary cycle are written against.

    The lock around every operation is not modelled: each operation is one
    atomic step. File I/O is a `BufferFile` value plus a `WriteOutcome` input. */
module MessageBuffer {
  import opened Wrappers
  import opened Values

  /** `Message`: the record the dict-based server intends to buffer. Python does
      not enforce the field annotations and the server passes request values
      through unchanged, so the process fields hold request values. The
      timestamp is the instant of `handle_send`, in microseconds since the epoch. */
  datatype Message = Message(
    message: string,
    immediate: bool,
    logLevel: Value,
    processName: Value,
    processId: Value,
    timestamp: int)

  /** The buffer file: absent, holding a decodable list, or holding something
      `json.load` rejects (including a file truncated by a failed write). */
  datatype BufferFile<T> = Missing | Stored(items: seq<T>) | Unreadable

  /** How one `_persist` ends. `open(..., "w")` truncates the file before
      `json.dump` writes, so a failing dump leaves an unreadable file. */
  datatype WriteOutcome = Written | OpenFailed | DumpFailed

  datatype BufferError = LoadFailed | PersistFailed

  /** The in-memory list `_data` and the file it was last written to. */
  datatype Buffer<T> = Buffer(data: seq<T>, file: BufferFile<T>)

  /** The state after an operation and whether the operation returned or raised. */
  datatype Step<T> = Step(buffer: Buffer<T>, outcome: Result<(), BufferError>)

  /** The file holds exactly the in-memory list. */
  ghost predicate Persisted<T>(b: Buffer<T>)
  {
    b.file == Stored(b.data)
  }

  /** `__post_init__`: the empty list when the file is absent, the loaded list
      otherwise, and an error (no fallback) when the file cannot be decoded. */
  function Restore<T>(file: BufferFile<T>): (r: Result<Buffer<T>, BufferError>)
    ensures r.Success? <==> !file.Unreadable?
    ensures r.Success? ==> r.value.file == file
    ensures r.Success? && file.Missing? ==> r.value.data == []
    ensures r.Success? && file.Stored? ==> Persisted(r.value)
  {
    match file
    case Missing => Success(Buffer([], Missing))
    case Stored(items) => Success(Buffer(items, file))
    case Unreadable => Failure(LoadFailed)
  }

  /** `_persist`: write the whole in-memory list over the file. */
  function Persist<T>(b: Buffer<T>, w: WriteOutcome): (r: Step<T>)
    ensures r.buffer.data == b.data
    ensures r.outcome.Success? <==> w.Written?
    ensures w.Written? ==> Persisted(r.buffer)
    ensures w.OpenFailed? ==> r.buffer.file == b.file
    ensures w.DumpFailed? ==> r.buffer.file.Unreadable?
  {
    match w
    case Written => Step(b.(file := Stored(b.data)), Success(()))
    case OpenFailed => Step(b, Failure(PersistFailed))
    case DumpFailed => Step(b.(file := Unreadable), Failure(PersistFailed))
  }

  /** `insert`: append first, then persist. A failed persist raises, but the
      message is already in memory. */
  function Insert<T>(b: Buffer<T>, m: T, w: WriteOutcome): (r: Step<T>)
    ensures |r.buffer.data| == |b.data| + 1
    ensures r.buffer.data[..|b.data|] == b.data && r.buffer.data[|b.data|] == m
    ensures r.outcome.Success? <==> w.Written?
    ensures w.Written? ==> Persisted(r.buffer)
    ensures w.OpenFailed? ==> r.buffer.file == b.file
  {
    Persist(b.(data := b.data + [m]), w)
  }

  /** `get_all_messages`: the whole list, in insertion order. It is a pure
      function of the state, so two calls in a row agree. */
  function GetAll<T>(b: Buffer<T>): seq<T>
  {
    b.data
  }

  /** `clear`: empty the list, then persist the empty list. */
  function Clear<T>(b: Buffer<T>, w: WriteOutcome): (r: Step<T>)
    ensures GetAll(r.buffer) == []
    ensures r.outcome.Success? <==> w.Written?
    ensures w.Written? ==> r.buffer.file == Stored([])
  {
    Persist(b.(data := []), w)
  }

  /** A run of inserts with the given persist outcomes; raised errors are
      reported to the caller and do not stop the next insert. */
  function InsertAll<T>(b: Buffer<T>, ms: seq<T>, ws: seq<WriteOutcome>): Buffer<T>
    requires |ws| == |ms|
    decreases |ms|
  {
    if |ms| == 0 then b else InsertAll(Insert(b, ms[0], ws[0]).buffer, ms[1..], ws[1..])
  }

  /** Inserts accumulate in order whatever the persists do; when every persist
      succeeds the file holds the same list. */
  lemma {:induction false} InsertsAccumulate<T>(b: Buffer<T>, ms: seq<T>, ws: seq<WriteOutcome>)
    requires |ws| == |ms|
    ensures GetAll(InsertAll(b, ms, ws)) == b.data + ms
    ensures |ms| > 0 && (forall i :: 0 <= i < |ws| ==> ws[i].Written?) ==> Persisted(InsertAll(b, ms, ws))
    decreases |ms|
  {
    if |ms| > 0 {
      var next := Insert(b, ms[0], ws[0]).buffer;
      assert next.data == b.data + [ms[0]];
      InsertsAccumulate(next, ms[1..], ws[1..]);
      assert b.data + [ms[0]] + ms[1..] == b.data + ms;
    }
  }

  /** From an absent file, n inserts give back exactly [m1..mn]; a clear then
      gives back the empty list. */
  lemma FreshBufferHistory<T>(ms: seq<T>, ws: seq<WriteOutcome>, w: WriteOutcome)
    requires |ws| == |ms|
    ensures Restore<T>(Missing).Success?
    ensures GetAll(InsertAll(Restore<T>(Missing).value, ms, ws)) == ms
    ensures GetAll(Clear(InsertAll(Restore<T>(Missing).value, ms, ws), w).buffer) == []
  {
    InsertsAccumulate(Restore<T>(Missing).value, ms, ws);
  }

  /** Durability: after an insert returns, re-opening the buffer from its file
      yields the list that ends with the inserted message. */
  lemma InsertDurable<T>(b: Buffer<T>, m: T)
    ensures var after := Insert(b, m, Written).buffer;
      Restore(after.file) == Success(Buffer(b.data + [m], after.file))
  {
  }

  /** A failed persist leaves memory and file disagreeing: the message is in
      memory but not in the file. */
  lemma FailedInsertDiverges<T>(b: Buffer<T>, m: T, w: WriteOutcome)
    requires Persisted(b)
    requires !w.Written?
    ensures !Persisted(Insert(b, m, w).buffer)
    ensures m == GetAll(Insert(b, m, w).buffer)[|b.data|]
  {
  }
}
