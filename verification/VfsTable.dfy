/**
 * The server's connection table: attach, open, close and detach over an id
 * allocator and a backend whose calls may fail.
 */
module VfsTable {
  import opened Bytes
  import IdMap

  datatype Status = Ok | BadConnection | FileNotOpen | AlreadyOpen | DeviceFull | BadParameter | BackendError

  /** Io stands for read, write, seek, flush, truncate and the descriptor calls; `fits` for the length check of a write. */
  datatype Request = Attach | Open | Io(fits: bool) | Inspect | Close | Detach

  /** One entry: the handle is there while the file is open. */
  datatype File = File(handle: Option<nat>)

  /** The backend, reduced to which handles it has given out and not taken back. Whether a call succeeds is up to the caller. */
  class Backend {
    var next: nat
    ghost var held: set<nat>

    ghost predicate Valid()
      reads this
    {
      forall h :: h in held ==> h < next
    }

    constructor ()
      ensures Valid() && held == {}
    {
      next, held := 0, {};
    }

    method Open(ok: bool) returns (handle: Option<nat>)
      requires Valid()
      modifies this
      ensures Valid() && (handle.Some? <==> ok)
      ensures if ok then handle.value !in old(held) && held == old(held) + {handle.value} else held == old(held)
    {
      if !ok { return None; }
      handle := Some(next);
      held := held + {next};
      next := next + 1;
    }

    /** Only a handle that is open may be used. */
    method Use(handle: nat, ok: bool) returns (status: Status)
      requires handle in held
      ensures status == if ok then Ok else BackendError
    {
      status := if ok then Ok else BackendError;
    }

    method Close(handle: nat, ok: bool) returns (status: Status)
      requires Valid() && handle in held
      modifies this
      ensures Valid() && status == (if ok then Ok else BackendError)
      ensures held == if ok then old(held) - {handle} else old(held)
    {
      if !ok { return BackendError; }
      held := held - {handle};
      status := Ok;
    }
  }

  ghost predicate HandlesApart(files: map<nat, File>) {
    forall c, d :: c in files && d in files && c != d && files[c].handle.Some? ==> files[c].handle != files[d].handle
  }

  ghost predicate HandlesOpen(files: map<nat, File>, held: set<nat>) {
    forall c :: c in files && files[c].handle.Some? ==> files[c].handle.value in held
  }

  class Vfs {
    const backend: Backend
    const connectionIds: IdMap.Map
    var files: map<nat, File>
    /** Ids that are taken although no connection has them. */
    ghost var leaked: set<nat>

    ghost predicate Valid()
      reads this, backend, connectionIds.bytes
    {
      && connectionIds.Valid() && backend.Valid()
      && connectionIds.Taken() == files.Keys + leaked && files.Keys !! leaked
      && HandlesApart(files) && HandlesOpen(files, backend.held)
    }

    constructor (chunks: nat)
      requires chunks > 0
      ensures Valid() && files == map[] && leaked == {}
      ensures fresh(backend) && fresh(connectionIds.bytes)
    {
      backend := new Backend();
      connectionIds := new IdMap.Map(chunks);
      files, leaked := map[], {};
    }

    /** A new connection takes the least free id, never one in use. */
    method DoAttach(attachable: bool) returns (status: Status, id: nat)
      requires Valid()
      modifies this, connectionIds.bytes
      ensures Valid() && leaked == old(leaked)
      ensures status == Ok ==> id > 0 && id !in old(files) && files == old(files)[id := File(None)]
      ensures status != Ok ==> id == 0 && files == old(files)
      ensures status == DeviceFull <==> forall c :: 1 <= c <= connectionIds.Size() ==> c in old(files) || c in old(leaked)
      ensures status != DeviceFull ==> status == if attachable then Ok else BackendError
    {
      var free := connectionIds.FindFree();
      if free.None? { return DeviceFull, 0; }
      if !attachable { return BackendError, 0; }
      id := free.value;
      files := files[id := File(None)];
      connectionIds.Set(id);
      status := Ok;
    }

    method DoOpen(conn: nat, ok: bool) returns (status: Status)
      requires Valid()
      modifies this, backend
      ensures Valid() && leaked == old(leaked) && files.Keys == old(files).Keys
      ensures status == if conn !in old(files) then BadConnection
                        else if old(files)[conn].handle.Some? then AlreadyOpen
                        else if ok then Ok else BackendError
      ensures status == Ok ==> files[conn].handle.Some? && files == old(files)[conn := files[conn]]
      ensures status != Ok ==> files == old(files)
    {
      if conn !in files { return BadConnection; }
      if files[conn].handle.Some? { return AlreadyOpen; }
      var handle := backend.Open(ok);
      if handle.None? { return BackendError; }
      files := files[conn := File(handle)];
      status := Ok;
    }

    /** Calls reach the backend only with an open handle. */
    method DoIo(conn: nat, fits: bool, ok: bool) returns (status: Status)
      requires Valid()
      ensures status == if !fits then BadParameter
                        else if conn !in files then BadConnection
                        else if files[conn].handle.None? then FileNotOpen
                        else if ok then Ok else BackendError
    {
      if !fits { return BadParameter; }
      if conn !in files { return BadConnection; }
      if files[conn].handle.None? { return FileNotOpen; }
      status := backend.Use(files[conn].handle.value, ok);
    }

    /** Reading and setting status and reading a directory need a connection, not an open file. */
    method DoInspect(conn: nat, ok: bool) returns (status: Status)
      requires Valid()
      ensures status == if conn !in files then BadConnection else if ok then Ok else BackendError
    {
      if conn !in files { return BadConnection; }
      if files[conn].handle.Some? {
        status := backend.Use(files[conn].handle.value, ok);
      } else {
        status := if ok then Ok else BackendError;
      }
    }

    method DoClose(conn: nat, ok: bool) returns (status: Status)
      requires Valid()
      modifies this, backend
      ensures Valid() && leaked == old(leaked)
      ensures status == if conn !in old(files) then BadConnection
                        else if old(files)[conn].handle.None? || ok then Ok else BackendError
      ensures files == if status == Ok then old(files)[conn := File(None)] else old(files)
    {
      if conn !in files { return BadConnection; }
      if files[conn].handle.None? {
        assert files[conn := File(None)] == files;
        return Ok;
      }
      status := backend.Close(files[conn].handle.value, ok);
      if status != Ok { return; }
      files := files[conn := File(None)];
    }

    /** The connection is gone either way, but its id is given back only if the backend could close the file. */
    method DoDetach(conn: nat, ok: bool) returns (status: Status)
      requires Valid()
      modifies this, backend, connectionIds.bytes
      ensures Valid() && files == old(files) - {conn}
      ensures status == if conn !in old(files) then BadConnection
                        else if old(files)[conn].handle.None? || ok then Ok else BackendError
      ensures leaked == if status == BackendError then old(leaked) + {conn} else old(leaked)
    {
      if conn !in files {
        assert files - {conn} == files;
        return BadConnection;
      }
      var file := files[conn];
      files := files - {conn};
      if file.handle.Some? {
        status := backend.Close(file.handle.value, ok);
        if status != Ok {
          leaked := leaked + {conn};
          return;
        }
      }
      connectionIds.Clear(conn);
      status := Ok;
    }

    method Process(request: Request, conn: nat, ok: bool) returns (status: Status, id: nat)
      requires Valid()
      modifies this, backend, connectionIds.bytes
      ensures Valid() && Effect(request, conn, ok, old(files), status, id, files)
      ensures leaked == if request == Detach && status == BackendError then old(leaked) + {conn} else old(leaked)
      ensures status == DeviceFull ==> forall c :: 1 <= c <= connectionIds.Size() ==> c in old(files) || c in old(leaked)
    {
      id := 0;
      match request {
        case Attach => status, id := DoAttach(ok);
        case Open => status := DoOpen(conn, ok);
        case Io(fits) => status := DoIo(conn, fits, ok);
        case Inspect => status := DoInspect(conn, ok);
        case Close => status := DoClose(conn, ok);
        case Detach => status := DoDetach(conn, ok);
      }
    }

    /**
     * Over every run of requests each has its effect and no other, live
     * connections hold allocated ids, and as long as the backend can close what
     * is detached they hold all of them.
     */
    method Serve(requests: seq<Call>) returns (answers: seq<Answer>, ghost tables: seq<Table>)
      requires Valid()
      modifies this, backend, connectionIds.bytes
      ensures Valid() && files.Keys <= connectionIds.Taken()
      ensures AllEffects(requests, answers, tables) && tables[0] == old(files) && tables[|requests|] == files
      ensures old(leaked) == {} && (forall k :: 0 <= k < |requests| && requests[k].request == Detach ==> requests[k].ok)
              ==> files.Keys == connectionIds.Taken()
    {
      answers, tables := [], [files];
      for k := 0 to |requests|
        invariant Valid() && AllEffects(requests[..k], answers, tables) && tables[0] == old(files) && tables[k] == files
        invariant (forall i :: 0 <= i < k && requests[i].request == Detach ==> requests[i].ok) ==> leaked == old(leaked)
      {
        var call := requests[k];
        var status, id := Process(call.request, call.conn, call.ok);
        OneMoreEffect(requests[..k], answers, tables, call, Answer(status, id), files);
        assert requests[..k] + [call] == requests[..k + 1];
        answers, tables := answers + [Answer(status, id)], tables + [files];
      }
      assert requests[..|requests|] == requests;
    }
  }

  // ---- what each request is for, and what a client can rely on ----

  type Table = map<nat, File>

  /** A request, the connection it names, and whether the backend's part of it would succeed. */
  datatype Call = Call(request: Request, conn: nat, ok: bool)

  datatype Answer = Answer(status: Status, id: nat)

  predicate IsOpen(t: Table, conn: nat) {
    conn in t && t[conn].handle.Some?
  }

  /** Nothing but this connection may have changed. */
  ghost predicate Only(conn: nat, t: Table, t': Table) {
    forall c :: c != conn ==> (c in t <==> c in t') && (c in t ==> t'[c] == t[c])
  }

  ghost predicate Effect(request: Request, conn: nat, ok: bool, t: Table, status: Status, id: nat, t': Table) {
    match request
    case Attach =>
      && (status == Ok ==> id > 0 && id !in t && id in t' && !IsOpen(t', id) && Only(id, t, t'))
      && (status != Ok ==> t' == t) && (status == (if ok then Ok else BackendError) || status == DeviceFull)
    case Open =>
      && status == (if conn !in t then BadConnection else if IsOpen(t, conn) then AlreadyOpen else if ok then Ok else BackendError)
      && Only(conn, t, t') && (conn in t' <==> conn in t)
      && (IsOpen(t', conn) <==> IsOpen(t, conn) || status == Ok) && (status != Ok ==> t' == t)
    case Io(fits) =>
      && status == (if !fits then BadParameter else if conn !in t then BadConnection else if !IsOpen(t, conn) then FileNotOpen
                    else if ok then Ok else BackendError)
      && t' == t
    case Inspect =>
      status == (if conn !in t then BadConnection else if ok then Ok else BackendError) && t' == t
    case Close =>
      && status == (if conn !in t then BadConnection else if IsOpen(t, conn) && !ok then BackendError else Ok)
      && Only(conn, t, t') && (conn in t' <==> conn in t)
      && (IsOpen(t', conn) <==> IsOpen(t, conn) && status != Ok) && (status != Ok ==> t' == t)
    case Detach =>
      && status == (if conn !in t then BadConnection else if IsOpen(t, conn) && !ok then BackendError else Ok)
      && Only(conn, t, t') && conn !in t'
  }

  ghost predicate AllEffects(calls: seq<Call>, answers: seq<Answer>, tables: seq<Table>) {
    && |answers| == |calls| && |tables| == |calls| + 1
    && forall k :: 0 <= k < |calls| ==>
         Effect(calls[k].request, calls[k].conn, calls[k].ok, tables[k], answers[k].status, answers[k].id, tables[k + 1])
  }

  lemma OneMoreEffect(calls: seq<Call>, answers: seq<Answer>, tables: seq<Table>, call: Call, answer: Answer, next: Table)
    requires AllEffects(calls, answers, tables)
    requires Effect(call.request, call.conn, call.ok, tables[|calls|], answer.status, answer.id, next)
    ensures AllEffects(calls + [call], answers + [answer], tables + [next])
  {
    var calls', answers', tables' := calls + [call], answers + [answer], tables + [next];
    forall k | 0 <= k < |calls'|
      ensures Effect(calls'[k].request, calls'[k].conn, calls'[k].ok, tables'[k], answers'[k].status, answers'[k].id, tables'[k + 1])
    {
      if k < |calls| {
        assert Effect(calls[k].request, calls[k].conn, calls[k].ok, tables[k], answers[k].status, answers[k].id, tables[k + 1]);
      }
    }
  }

  /** From i up to k nobody closes or detaches the connection. */
  ghost predicate LeftOpen(calls: seq<Call>, conn: nat, i: nat, k: nat)
    requires k <= |calls|
  {
    forall j :: i <= j < k && calls[j].conn == conn ==> calls[j].request != Close && calls[j].request != Detach
  }

  lemma {:induction false} StaysOpen(calls: seq<Call>, answers: seq<Answer>, tables: seq<Table>, conn: nat, i: nat, k: nat)
    requires AllEffects(calls, answers, tables) && i <= k <= |calls|
    requires IsOpen(tables[i], conn) && LeftOpen(calls, conn, i, k)
    ensures IsOpen(tables[k], conn)
    decreases k
  {
    if i < k {
      StaysOpen(calls, answers, tables, conn, i, k - 1);
      assert Effect(calls[k - 1].request, calls[k - 1].conn, calls[k - 1].ok, tables[k - 1],
                    answers[k - 1].status, answers[k - 1].id, tables[k]);
    }
  }

  /** A file that was opened and neither closed nor detached since can be used, whatever happened on other connections. */
  lemma OpenedCanBeUsed(calls: seq<Call>, answers: seq<Answer>, tables: seq<Table>, conn: nat, i: nat, k: nat)
    requires AllEffects(calls, answers, tables) && i < k < |calls|
    requires calls[i].request == Open && calls[i].conn == conn && answers[i].status == Ok && LeftOpen(calls, conn, i + 1, k)
    requires calls[k] == Call(Io(true), conn, true)
    ensures answers[k].status == Ok
  {
    assert Effect(calls[i].request, conn, calls[i].ok, tables[i], answers[i].status, answers[i].id, tables[i + 1]);
    StaysOpen(calls, answers, tables, conn, i + 1, k);
    assert Effect(Io(true), conn, true, tables[k], answers[k].status, answers[k].id, tables[k + 1]);
  }

  /** An attached connection whose backend plays along can be opened, used, closed and detached. */
  lemma WholeLife(calls: seq<Call>, answers: seq<Answer>, tables: seq<Table>, k: nat, conn: nat)
    requires AllEffects(calls, answers, tables) && k + 5 <= |calls|
    requires calls[k].request == Attach && answers[k] == Answer(Ok, conn)
    requires calls[k + 1..k + 5] == [Call(Open, conn, true), Call(Io(true), conn, true), Call(Close, conn, true), Call(Detach, conn, true)]
    ensures forall j :: k <= j < k + 5 ==> answers[j].status == Ok
    ensures tables[k + 5] == tables[k]
  {
    var rest := calls[k + 1..k + 5];
    assert calls[k + 1] == rest[0] && calls[k + 2] == rest[1] && calls[k + 3] == rest[2] && calls[k + 4] == rest[3];
    assert Effect(Attach, calls[k].conn, calls[k].ok, tables[k], Ok, conn, tables[k + 1]);
    assert Effect(Open, conn, true, tables[k + 1], answers[k + 1].status, answers[k + 1].id, tables[k + 2]);
    assert Effect(Io(true), conn, true, tables[k + 2], answers[k + 2].status, answers[k + 2].id, tables[k + 3]);
    assert Effect(Close, conn, true, tables[k + 3], answers[k + 3].status, answers[k + 3].id, tables[k + 4]);
    assert Effect(Detach, conn, true, tables[k + 4], answers[k + 4].status, answers[k + 4].id, tables[k + 5]);
  }
}
