/** The resumable download of snapshot files from a peer. */
module SnapshotDownload {
  import opened Common

  const READ_SNAPSHOT_FILE_SIZE: nat := 1024 * 1024 * 2

  type Name = string

  type Bytes = seq<bv8>

  type Files = map<Name, Bytes>

  datatype FileInfo = FileInfo(name: Name, size: nat)

  datatype Msg =
    | FileListReq(block: Hash)
    | FileListRsp(block: Hash, files: seq<FileInfo>)
    | DataReq(block: Hash, name: Name, offset: nat)
    | DataRsp(block: Hash, name: Name, offset: nat, data: Bytes)

  /** The downloading side. `pending` are the files still to fetch, `local` the files on disk. */
  datatype Client = Client(netId: nat, pending: seq<FileInfo>, block: Hash, local: Files)

  /** What the server holds for the configured snapshot block: its files and its directory listing. */
  datatype World = World(config: Hash, server: Files, listing: seq<FileInfo>)

  /** The contents of a file; a file that does not exist has none. */
  function Content(files: Files, name: Name): Bytes
  {
    if name in files then files[name] else []
  }

  // ----- the serving side

  function Read(server: Files, name: Name, offset: nat): (data: Bytes)
    ensures |data| <= READ_SNAPSHOT_FILE_SIZE
    ensures data == [] <==> offset >= |Content(server, name)|
    ensures data != [] ==>
              && offset + |data| <= |Content(server, name)|
              && data == Content(server, name)[offset..offset + |data|]
  {
    if name !in server then []
    else
      var file := server[name];
      if offset >= |file| then []
      else
        var rest := |file| - offset;
        var size := if rest > READ_SNAPSHOT_FILE_SIZE then READ_SNAPSHOT_FILE_SIZE else rest;
        file[offset..offset + size]
  }

  function Answer(w: World, m: Msg): Msg
  {
    match m
    case FileListReq(block) => FileListRsp(block, if block == w.config then w.listing else [])
    case DataReq(block, name, offset) =>
      DataRsp(block, name, offset, if block == w.config then Read(w.server, name, offset) else [])
    case _ => m
  }

  // ----- the downloading side, as functions

  /** A remote file is fetched when there is no local file of that name and size. */
  predicate Needs(local: Files, info: FileInfo)
  {
    info.name !in local || |local[info.name]| != info.size
  }

  function Needed(local: Files, files: seq<FileInfo>): seq<FileInfo>
  {
    if files == [] then []
    else
      var last := files[|files| - 1];
      Needed(local, files[..|files| - 1]) + if Needs(local, last) then [last] else []
  }

  function RemoveFirst(pending: seq<FileInfo>, name: Name): seq<FileInfo>
  {
    if pending == [] then []
    else if pending[0].name == name then pending[1..]
    else [pending[0]] + RemoveFirst(pending[1..], name)
  }

  lemma RemoveFirstSkips(pending: seq<FileInfo>, i: nat, name: Name)
    requires i < |pending| && pending[i].name != name
    ensures pending[..i] + RemoveFirst(pending[i..], name) == pending[..i + 1] + RemoveFirst(pending[i + 1..], name)
  {
    assert pending[i..][1..] == pending[i + 1..];
    assert pending[..i + 1] == pending[..i] + [pending[i]];
  }

  function NextRequest(pending: seq<FileInfo>, local: Files, block: Hash): Option<Msg>
  {
    if pending == [] then None
    else Some(DataReq(block, pending[0].name, |Content(local, pending[0].name)|))
  }

  /** The disk write appends, whatever the offset. */
  function Append(local: Files, name: Name, data: Bytes): Files
  {
    local[name := Content(local, name) + data]
  }

  function OnList(c: Client, config: Hash, netId: nat, block: Hash, files: seq<FileInfo>): (Client, Option<Msg>)
  {
    if netId != c.netId || files == [] || block != config then (c, None)
    else
      var pending := c.pending + Needed(c.local, files);
      if pending == [] then (c, None)
      else (c.(pending := pending, block := block), NextRequest(pending, c.local, block))
  }

  function OnData(c: Client, netId: nat, block: Hash, name: Name, offset: nat, data: Bytes): (Client, Option<Msg>)
  {
    if netId != c.netId then (c, None)
    else if data == [] then
      var pending := RemoveFirst(c.pending, name);
      (c.(pending := pending, block := if pending == [] then 0 else c.block), NextRequest(pending, c.local, block))
    else
      (c.(local := Append(c.local, name, data)), Some(DataReq(block, name, offset + |data|)))
  }

  /** The handlers as the source writes them, each proved to compute its function. */
  class SnapshotDownChannel {
    const config: Hash
    var netId: nat
    var pending: seq<FileInfo>
    var block: Hash
    var local: Files

    constructor (config: Hash, local: Files)
      ensures this.config == config && State() == Client(0, [], 0, local)
    {
      this.config := config;
      this.netId, this.pending, this.block, this.local := 0, [], 0, local;
    }

    function State(): Client
      reads this
    {
      Client(netId, pending, block, local)
    }

    method HandleMsgFilelistRsp(fromNet: nat, snapBlock: Hash, files: seq<FileInfo>) returns (reply: Option<Msg>)
      modifies this
      ensures (State(), reply) == OnList(old(State()), config, fromNet, snapBlock, files)
    {
      reply := None;
      if fromNet != netId {
        return;
      }
      if files != [] && snapBlock == config {
        for i := 0 to |files|
          invariant pending == old(pending) + Needed(local, files[..i])
          invariant netId == old(netId) && block == old(block) && local == old(local)
        {
          assert files[..i + 1][..i] == files[..i];
          if files[i].name !in local || |local[files[i].name]| != files[i].size {
            pending := pending + [files[i]];
          }
        }
        assert files[..|files|] == files;
        if pending != [] {
          block := snapBlock;
          reply := RequestNextFile(snapBlock);
        }
      }
    }

    method HandleMsgDownDataRsp(fromNet: nat, snapBlock: Hash, name: Name, offset: nat, data: Bytes)
      returns (reply: Option<Msg>)
      modifies this
      ensures (State(), reply) == OnData(old(State()), fromNet, snapBlock, name, offset, data)
    {
      reply := None;
      if fromNet != netId {
        return;
      }
      if data == [] {
        FileDownComplete(name);
        reply := RequestNextFile(snapBlock);
      } else {
        local := Append(local, name, data);
        reply := Some(DataReq(snapBlock, name, offset + |data|));
      }
    }

    method FileDownComplete(name: Name)
      modifies this`pending, this`block
      ensures pending == RemoveFirst(old(pending), name)
      ensures block == if pending == [] then 0 else old(block)
    {
      var i := 0;
      while i < |pending| && pending[i].name != name
        invariant 0 <= i <= |pending| && pending == old(pending) && block == old(block)
        invariant RemoveFirst(pending, name) == pending[..i] + RemoveFirst(pending[i..], name)
      {
        RemoveFirstSkips(pending, i, name);
        i := i + 1;
      }
      if i < |pending| {
        assert pending[i..][1..] == pending[i + 1..];
        pending := pending[..i] + pending[i + 1..];
      }
      if pending == [] {
        block := 0;
      }
    }

    method RequestNextFile(snapBlock: Hash) returns (reply: Option<Msg>)
      ensures reply == NextRequest(pending, local, snapBlock)
    {
      reply := None;
      if pending != [] {
        var name := pending[0].name;
        var size := if name in local then |local[name]| else 0;
        reply := Some(DataReq(snapBlock, name, size));
      }
    }
  }

  // ----- the two nodes and the connections between them

  /**
   * `wires` has the one message in flight of each connection; `used` are the connections ever made;
   * `listed` says that a file list has been handled.
   */
  datatype System = System(client: Client, wires: map<nat, Msg>, used: set<nat>, listed: bool)

  /** A connection comes up or goes down, the server answers on it, or the client takes an answer from it. */
  datatype Step = Connect(id: nat) | Disconnect(id: nat) | Serve(id: nat) | Receive(id: nat)

  predicate IsRequest(m: Msg)
  {
    m.FileListReq? || m.DataReq?
  }

  function Handle(w: World, c: Client, id: nat, m: Msg): (Client, Option<Msg>)
  {
    match m
    case FileListRsp(block, files) => OnList(c, w.config, id, block, files)
    case DataRsp(block, name, offset, data) => OnData(c, id, block, name, offset, data)
    case _ => (c, None)
  }

  function Sent(wires: map<nat, Msg>, id: nat, m: Option<Msg>): map<nat, Msg>
  {
    if m.Some? then wires[id := m.value] else wires - {id}
  }

  /** A step that is not possible changes nothing. */
  function Apply(w: World, s: System, step: Step): System
  {
    match step
    case Connect(id) =>
      if id == 0 || id in s.used then s
      else System(s.client.(netId := id), s.wires[id := FileListReq(w.config)], s.used + {id}, s.listed)
    case Disconnect(id) =>
      System(s.client.(netId := if s.client.netId == id then 0 else s.client.netId), s.wires - {id}, s.used, s.listed)
    case Serve(id) =>
      if id in s.wires && IsRequest(s.wires[id]) then s.(wires := s.wires[id := Answer(w, s.wires[id])]) else s
    case Receive(id) =>
      if id in s.wires && !IsRequest(s.wires[id]) then
        var m := s.wires[id];
        var (client, reply) := Handle(w, s.client, id, m);
        System(client, Sent(s.wires, id, reply), s.used, s.listed || (m.FileListRsp? && id == s.client.netId))
      else s
  }

  function Run(w: World, s: System, steps: seq<Step>): System
  {
    if steps == [] then s else Apply(w, Run(w, s, steps[..|steps| - 1]), steps[|steps| - 1])
  }

  // ----- the invariant

  /** The listing names exactly the server's files, with their sizes. */
  ghost predicate Honest(w: World)
  {
    && w.config != 0
    && (forall i :: 0 <= i < |w.listing| ==>
                      w.listing[i].name in w.server && w.listing[i].size == |w.server[w.listing[i].name]|)
    && (forall n :: n in w.server ==> IsPending(w.listing, n))
  }

  /** Every local file is a prefix of the server's. */
  ghost predicate Prefixes(server: Files, local: Files)
  {
    forall n :: n in local ==> n in server && local[n] <= server[n]
  }

  ghost predicate IsPending(pending: seq<FileInfo>, n: Name)
  {
    exists x :: x in pending && x.name == n
  }

  ghost predicate Complete(server: Files, local: Files, n: Name)
  {
    Content(local, n) == Content(server, n)
  }

  /** The message on the current connection fits the client's state. */
  ghost predicate Fits(w: World, c: Client, m: Msg)
  {
    match m
    case FileListReq(block) => block == w.config
    case FileListRsp(block, files) => block == w.config && files == w.listing
    case DataReq(block, name, offset) =>
      block == w.config && c.pending != [] && name == c.pending[0].name && offset == |Content(c.local, name)|
    case DataRsp(block, name, offset, data) =>
      block == w.config && c.pending != [] && name == c.pending[0].name && offset == |Content(c.local, name)|
      && data == Read(w.server, name, offset)
  }

  ghost predicate ClientOk(w: World, c: Client)
  {
    && Prefixes(w.server, c.local)
    && (forall i :: 0 <= i < |c.pending| ==> c.pending[i].name in w.server)
    && c.block == (if c.pending == [] then 0 else w.config)
  }

  /** Once a list has been handled, a file is complete or pending. */
  ghost predicate Tracked(w: World, c: Client)
  {
    forall n :: n in w.server ==> Complete(w.server, c.local, n) || IsPending(c.pending, n)
  }

  ghost predicate Inv(w: World, s: System)
  {
    && ClientOk(w, s.client)
    && s.wires.Keys <= s.used && 0 !in s.used
    && (s.client.netId != 0 ==> s.client.netId in s.used)
    && (s.client.pending != [] ==> s.listed)
    && (s.listed ==> Tracked(w, s.client))
    && (s.client.netId in s.wires ==> Fits(w, s.client, s.wires[s.client.netId]))
    && (s.client.netId != 0 && s.client.netId !in s.wires ==> s.listed && s.client.pending == [])
  }

  // ----- what the handlers keep

  lemma {:induction false} NeededSource(local: Files, files: seq<FileInfo>)
    ensures forall x :: x in Needed(local, files) ==> x in files
    ensures forall x :: x in files && Needs(local, x) ==> x in Needed(local, files)
    ensures |Needed(local, files)| <= |files|
  {
    if files != [] {
      NeededSource(local, files[..|files| - 1]);
      assert files == files[..|files| - 1] + [files[|files| - 1]];
    }
  }

  lemma {:induction false} RemoveFirstPending(pending: seq<FileInfo>, name: Name)
    ensures forall x :: x in RemoveFirst(pending, name) ==> x in pending
    ensures forall x :: x in pending && x.name != name ==> x in RemoveFirst(pending, name)
    ensures |RemoveFirst(pending, name)| == if IsPending(pending, name) then |pending| - 1 else |pending|
  {
    if pending != [] {
      RemoveFirstPending(pending[1..], name);
      assert pending == [pending[0]] + pending[1..];
      assert forall x :: x in pending <==> x == pending[0] || x in pending[1..];
    }
  }

  /** Appending what was read at the end of a prefix gives a longer prefix. */
  lemma AppendPrefix(server: Files, local: Files, name: Name)
    requires Prefixes(server, local) && name in server
    ensures var data := Read(server, name, |Content(local, name)|);
            && (data != [] ==> Prefixes(server, Append(local, name, data)))
            && (data == [] ==> Complete(server, local, name))
  {
  }

  lemma ListKeeps(w: World, c: Client)
    requires Honest(w) && ClientOk(w, c)
    ensures var (c', reply) := OnList(c, w.config, c.netId, w.config, w.listing);
            && ClientOk(w, c') && Tracked(w, c') && c'.netId == c.netId && c'.local == c.local
            && reply == NextRequest(c'.pending, c'.local, w.config)
            && |c'.pending| <= |c.pending| + |w.listing|
  {
    var (c', reply) := OnList(c, w.config, c.netId, w.config, w.listing);
    NeededSource(c.local, w.listing);
    if w.listing == [] {
      EmptyListing(w, c);
    } else {
      assert c'.pending == c.pending + Needed(c.local, w.listing);
      NeededTracks(w, c);
    }
  }

  lemma EmptyListing(w: World, c: Client)
    requires Honest(w) && ClientOk(w, c) && w.listing == []
    ensures c.pending == [] && w.server == map[]
  {
    assert |c.pending| > 0 ==> c.pending[0].name in w.server;
    assert forall n :: !IsPending(w.listing, n);
    assert forall n :: n !in w.server;
  }

  /** A listed file that is not fetched again is already complete. */
  lemma NeededTracks(w: World, c: Client)
    requires Honest(w) && ClientOk(w, c)
    ensures Tracked(w, c.(pending := c.pending + Needed(c.local, w.listing)))
    ensures forall x :: x in Needed(c.local, w.listing) ==> x.name in w.server
  {
    NeededSource(c.local, w.listing);
    forall n | n in w.server
      ensures Complete(w.server, c.local, n) || IsPending(c.pending + Needed(c.local, w.listing), n)
    {
      var x :| x in w.listing && x.name == n;
      if !Needs(c.local, x) {
        assert c.local[n] <= w.server[n];
      }
    }
  }

  lemma DataKeeps(w: World, c: Client, m: Msg)
    requires ClientOk(w, c) && m.DataRsp? && Fits(w, c, m)
    ensures var (c', reply) := OnData(c, c.netId, m.block, m.name, m.offset, m.data);
            && ClientOk(w, c') && c'.netId == c.netId
            && (Tracked(w, c) ==> Tracked(w, c'))
            && reply == NextRequest(c'.pending, c'.local, w.config)
            && (m.data == [] ==> c'.local == c.local && |c'.pending| == |c.pending| - 1)
            && (m.data != [] ==> c'.pending == c.pending)
  {
    AppendPrefix(w.server, c.local, m.name);
    if m.data == [] {
      RemoveFirstPending(c.pending, m.name);
      assert IsPending(c.pending, m.name) by {
        assert c.pending[0] in c.pending;
      }
    }
    if Tracked(w, c) {
      DataTracks(w, c, m);
    }
  }

  lemma DataTracks(w: World, c: Client, m: Msg)
    requires Prefixes(w.server, c.local) && m.DataRsp? && m.name in w.server && Tracked(w, c)
    requires m.data == Read(w.server, m.name, |Content(c.local, m.name)|)
    ensures Tracked(w, if m.data == [] then c.(pending := RemoveFirst(c.pending, m.name))
                       else c.(local := Append(c.local, m.name, m.data)))
  {
    AppendPrefix(w.server, c.local, m.name);
    RemoveFirstPending(c.pending, m.name);
    var left := RemoveFirst(c.pending, m.name);
    forall n | n in w.server && n != m.name && IsPending(c.pending, n) ensures IsPending(left, n) {
      var x :| x in c.pending && x.name == n;
      assert x in left;
    }
    if m.data != [] {
      assert !Complete(w.server, c.local, m.name);
    }
  }

  // ----- safety over whole runs

  lemma ConnectKeeps(w: World, s: System, id: nat)
    requires Honest(w) && Inv(w, s)
    ensures Inv(w, Apply(w, s, Connect(id))) && Inv(w, Apply(w, s, Disconnect(id)))
  {
  }

  lemma ServeKeeps(w: World, s: System, id: nat)
    requires Honest(w) && Inv(w, s)
    ensures Inv(w, Apply(w, s, Serve(id)))
  {
  }

  lemma ReceiveKeeps(w: World, s: System, id: nat)
    requires Honest(w) && Inv(w, s)
    ensures Inv(w, Apply(w, s, Receive(id)))
  {
    if id in s.wires && !IsRequest(s.wires[id]) && id == s.client.netId {
      if s.wires[id].DataRsp? {
        DataKeeps(w, s.client, s.wires[id]);
      } else {
        ListKeeps(w, s.client);
      }
    }
  }

  /** In every state of every run, with any connections lost and made, the invariant holds. */
  lemma {:induction false} RunKeeps(w: World, s: System, steps: seq<Step>)
    requires Honest(w) && Inv(w, s)
    ensures Inv(w, Run(w, s, steps))
  {
    if steps != [] {
      RunKeeps(w, s, steps[..|steps| - 1]);
      var before, step := Run(w, s, steps[..|steps| - 1]), steps[|steps| - 1];
      match step {
        case Connect(id) => ConnectKeeps(w, before, id);
        case Disconnect(id) => ConnectKeeps(w, before, id);
        case Serve(id) => ServeKeeps(w, before, id);
        case Receive(id) => ReceiveKeeps(w, before, id);
      }
    }
  }

  /** A download starts with local files that are prefixes of the server's and nothing pending. */
  function Start(local: Files): System
  {
    System(Client(0, [], 0, local), map[], {}, false)
  }

  /** The empty reply: in every reachable state it is on the current connection only for a complete file. */
  lemma RunSafe(w: World, local: Files, steps: seq<Step>)
    requires Honest(w) && Prefixes(w.server, local)
    ensures var s := Run(w, Start(local), steps);
            && Prefixes(w.server, s.client.local)
            && (s.client.netId in s.wires && s.wires[s.client.netId].DataRsp?
                ==> (s.wires[s.client.netId].data == []
                     <==> Complete(w.server, s.client.local, s.wires[s.client.netId].name)))
            && (s.listed && s.client.pending == [] ==>
                  forall n :: n in w.server ==> Complete(w.server, s.client.local, n))
  {
    RunKeeps(w, Start(local), steps);
    var s := Run(w, Start(local), steps);
    if s.client.netId in s.wires && s.wires[s.client.netId].DataRsp? {
      AppendPrefix(w.server, s.client.local, s.wires[s.client.netId].name);
    }
  }

  // ----- progress

  function Gap(file: Bytes, have: Bytes): nat
  {
    if |have| <= |file| then |file| - |have| else 0
  }

  ghost function Gaps(server: Files, local: Files): map<Name, nat>
  {
    map n | n in server :: Gap(server[n], Content(local, n))
  }

  /** The bytes still to fetch. */
  ghost function BytesLeft(w: World, c: Client): nat
  {
    Total(Gaps(w.server, c.local))
  }

  lemma AppendGap(server: Files, local: Files, name: Name, data: Bytes)
    requires name in server && |Content(local, name)| + |data| <= |server[name]|
    ensures Total(Gaps(server, Append(local, name, data))) == Total(Gaps(server, local)) - |data|
  {
    GapsAfter(server, local, name, data);
    TotalLower(Gaps(server, local), Gaps(server, Append(local, name, data)), name, |data|);
  }

  lemma GapsAfter(server: Files, local: Files, name: Name, data: Bytes)
    requires name in server && |Content(local, name)| + |data| <= |server[name]|
    ensures var gaps := Gaps(server, local);
            Gaps(server, Append(local, name, data)) == gaps[name := gaps[name] - |data|]
  {
    forall n | n in server && n != name ensures Content(Append(local, name, data), n) == Content(local, n) { }
  }

  /** Each data reply lowers (files left, bytes left): bytes when it has data, files when it is empty. */
  lemma DataDecreases(w: World, c: Client, m: Msg)
    requires ClientOk(w, c) && m.DataRsp? && Fits(w, c, m)
    ensures var (c', _) := OnData(c, c.netId, m.block, m.name, m.offset, m.data);
            if m.data == [] then |c'.pending| == |c.pending| - 1 && BytesLeft(w, c') == BytesLeft(w, c)
            else |c'.pending| == |c.pending| && BytesLeft(w, c') == BytesLeft(w, c) - |m.data|
  {
    DataKeeps(w, c, m);
    if m.data != [] {
      AppendGap(w.server, c.local, m.name, m.data);
    }
  }

  ghost function Effort(w: World, c: Client): nat
  {
    |c.pending| + BytesLeft(w, c)
  }

  /** The step takes a data reply, or a file list, from the current connection. */
  ghost predicate TakesData(s: System, step: Step)
  {
    step.Receive? && step.id == s.client.netId && step.id in s.wires && s.wires[step.id].DataRsp?
  }

  ghost predicate TakesList(s: System, step: Step)
  {
    step.Receive? && step.id == s.client.netId && step.id in s.wires && s.wires[step.id].FileListRsp?
  }

  ghost function DataTaken(w: World, s: System, steps: seq<Step>): nat
  {
    if steps == [] then 0
    else
      DataTaken(w, s, steps[..|steps| - 1])
      + if TakesData(Run(w, s, steps[..|steps| - 1]), steps[|steps| - 1]) then 1 else 0
  }

  ghost function FilesListed(w: World, s: System, steps: seq<Step>): nat
  {
    if steps == [] then 0
    else
      FilesListed(w, s, steps[..|steps| - 1])
      + if TakesList(Run(w, s, steps[..|steps| - 1]), steps[|steps| - 1]) then |w.listing| else 0
  }

  lemma StepEffort(w: World, s: System, step: Step)
    requires Honest(w) && Inv(w, s)
    ensures var after := Effort(w, Apply(w, s, step).client);
            if TakesData(s, step) then after < Effort(w, s.client)
            else if TakesList(s, step) then after <= Effort(w, s.client) + |w.listing|
            else after == Effort(w, s.client)
  {
    if TakesData(s, step) {
      DataDecreases(w, s.client, s.wires[step.id]);
    } else if TakesList(s, step) {
      ListKeeps(w, s.client);
    }
  }

  /** Over a whole run the data replies are paid for by the bytes and files left and by the lists received. */
  lemma {:induction false} ExchangesBounded(w: World, s: System, steps: seq<Step>)
    requires Honest(w) && Inv(w, s)
    ensures DataTaken(w, s, steps) + Effort(w, Run(w, s, steps).client) <= Effort(w, s.client)
            + FilesListed(w, s, steps)
  {
    if steps != [] {
      ExchangesBounded(w, s, steps[..|steps| - 1]);
      RunKeeps(w, s, steps[..|steps| - 1]);
      StepEffort(w, Run(w, s, steps[..|steps| - 1]), steps[|steps| - 1]);
    }
  }

  // ----- completion

  /** One round on the current connection: the server answers and the client takes the answer. */
  function Round(w: World, s: System): System
  {
    Apply(w, Apply(w, s, Serve(s.client.netId)), Receive(s.client.netId))
  }

  function Iterate(f: System -> System, s: System, k: nat): System
    decreases k
  {
    if k == 0 then s else Iterate(f, f(s), k - 1)
  }

  function Rounds(w: World, s: System, k: nat): System
  {
    Iterate(x => Round(w, x), s, k)
  }

  /** A step that lowers a measure while there is something to do, and does nothing after, gets to the end. */
  lemma {:induction false} IterateFinishes(f: System -> System, inv: System -> bool, busy: System -> bool,
                                           measure: System -> nat, s: System, k: nat)
    requires forall x :: inv(x) && busy(x) ==> inv(f(x)) && measure(f(x)) < measure(x)
    requires forall x :: !busy(x) ==> f(x) == x
    requires inv(s) && k >= measure(s)
    ensures inv(Iterate(f, s, k)) && !busy(Iterate(f, s, k))
    decreases k
  {
    if busy(s) {
      IterateFinishes(f, inv, busy, measure, f(s), k - 1);
    } else {
      IterateIdle(f, s, k);
    }
  }

  lemma {:induction false} IterateIdle(f: System -> System, s: System, k: nat)
    requires f(s) == s
    ensures Iterate(f, s, k) == s
  {
    if k > 0 {
      IterateIdle(f, s, k - 1);
    }
  }

  ghost predicate Fetching(s: System)
  {
    s.client.netId in s.wires ==> s.wires[s.client.netId].DataReq? || s.wires[s.client.netId].DataRsp?
  }

  lemma ReceiveFetches(w: World, s: System)
    requires Honest(w) && Inv(w, s) && s.client.netId in s.wires && !IsRequest(s.wires[s.client.netId])
    ensures var s' := Apply(w, s, Receive(s.client.netId)); s'.client.netId == s.client.netId && Fetching(s')
  {
    if s.wires[s.client.netId].DataRsp? {
      DataKeeps(w, s.client, s.wires[s.client.netId]);
    } else {
      ListKeeps(w, s.client);
    }
  }

  lemma RoundProgress(w: World, s: System)
    requires Honest(w) && Inv(w, s) && s.client.netId in s.wires
    ensures Progresses(w, s, Round(w, s))
  {
    var id := s.client.netId;
    var mid := Apply(w, s, Serve(id));
    ServeKeeps(w, s, id);
    assert mid.client == s.client && id in mid.wires && !IsRequest(mid.wires[id]);
    assert Fetching(s) <==> mid.wires[id].DataRsp?;
    AnswerTaken(w, s, mid);
  }

  lemma AnswerTaken(w: World, s: System, mid: System)
    requires Honest(w) && Inv(w, mid) && mid.client == s.client && mid.client.netId in mid.wires
             && !IsRequest(mid.wires[mid.client.netId])
    ensures var s' := Apply(w, mid, Receive(s.client.netId));
            && Inv(w, s') && s'.client.netId == s.client.netId && Fetching(s')
            && (if mid.wires[mid.client.netId].DataRsp? then Effort(w, s'.client) < Effort(w, s.client)
                else Effort(w, s'.client) <= Effort(w, s.client) + |w.listing|)
  {
    ReceiveKeeps(w, mid, s.client.netId);
    StepEffort(w, mid, Receive(s.client.netId));
    ReceiveFetches(w, mid);
  }

  /** What one round does to a state with a message in flight. */
  ghost predicate Progresses(w: World, s: System, s': System)
  {
    && Inv(w, s') && s'.client.netId == s.client.netId && Fetching(s')
    && (if Fetching(s) then Effort(w, s'.client) < Effort(w, s.client)
        else Effort(w, s'.client) <= Effort(w, s.client) + |w.listing|)
  }

  ghost predicate Busy(s: System)
  {
    s.client.netId in s.wires
  }

  ghost predicate FetchingOn(w: World, id: nat, s: System)
  {
    Inv(w, s) && s.client.netId == id && Fetching(s)
  }

  lemma FetchFinishes(w: World, s: System, k: nat)
    requires Honest(w) && FetchingOn(w, s.client.netId, s) && k >= Effort(w, s.client)
    ensures FetchingOn(w, s.client.netId, Rounds(w, s, k)) && !Busy(Rounds(w, s, k))
  {
    var id := s.client.netId;
    var f := (x: System) => Round(w, x);
    var inv, busy := (x: System) => FetchingOn(w, id, x), (x: System) => Busy(x);
    var measure := (x: System) => Effort(w, x.client);
    forall x | inv(x) && busy(x) ensures inv(f(x)) && measure(f(x)) < measure(x) {
      RoundProgress(w, x);
    }
    IterateFinishes(f, inv, busy, measure, s, k);
  }

  /** One round turns any state into one that fetches, and then it finishes. */
  lemma CompletesFrom(w: World, s: System, k: nat)
    requires Honest(w) && Inv(w, s) && s.client.netId != 0 && k > Effort(w, s.client) + |w.listing|
    ensures var s' := Rounds(w, s, k); Inv(w, s') && s'.client.netId == s.client.netId && !Busy(s')
  {
    if Busy(s) {
      RoundProgress(w, s);
      FetchFinishes(w, Round(w, s), k - 1);
    } else {
      FetchFinishes(w, s, k);
    }
  }

  lemma DoneComplete(w: World, s: System)
    requires Inv(w, s) && s.client.netId != 0 && s.client.netId !in s.wires
    ensures forall n :: n in w.server ==> Complete(w.server, s.client.local, n)
  {
  }

  /** From any state of any run, a connection that stays up long enough completes every file. */
  lemma Completes(w: World, local: Files, steps: seq<Step>, k: nat)
    requires Honest(w) && Prefixes(w.server, local)
    requires Run(w, Start(local), steps).client.netId != 0
    requires k > Effort(w, Run(w, Start(local), steps).client) + |w.listing|
    ensures forall n :: n in w.server ==> Complete(w.server, Rounds(w, Run(w, Start(local), steps), k).client.local, n)
  {
    RunKeeps(w, Start(local), steps);
    CompletesFrom(w, Run(w, Start(local), steps), k);
    DoneComplete(w, Rounds(w, Run(w, Start(local), steps), k));
  }

  /** An empty file on the server is never created locally, so a complete download may lack it. */
  lemma {:induction false} EmptyNeverCreated(w: World, s: System, steps: seq<Step>, n: Name)
    requires Honest(w) && Inv(w, s) && n !in s.client.local && Content(w.server, n) == []
    ensures n !in Run(w, s, steps).client.local
  {
    if steps != [] {
      var before, step := Run(w, s, steps[..|steps| - 1]), steps[|steps| - 1];
      EmptyNeverCreated(w, s, steps[..|steps| - 1], n);
      RunKeeps(w, s, steps[..|steps| - 1]);
    }
  }

  /** With one empty file on the server, every run of a fresh client is complete and never has the file. */
  lemma EmptyFileMissing(steps: seq<Step>)
    ensures var w := World(7, map["f" := []], [FileInfo("f", 0)]);
            var local := Run(w, Start(map[]), steps).client.local;
            Honest(w) && Complete(w.server, local, "f") && "f" !in local
  {
    var w := World(7, map["f" := []], [FileInfo("f", 0)]);
    assert FileInfo("f", 0) in w.listing;
    assert IsPending(w.listing, "f");
    EmptyNeverCreated(w, Start(map[]), steps, "f");
  }

  /** A complete file exists locally exactly when it has contents or was there already. */
  lemma CompleteExistsIff(w: World, s: System, steps: seq<Step>, n: Name)
    requires Honest(w) && Inv(w, s) && Complete(w.server, Run(w, s, steps).client.local, n)
    ensures n in Run(w, s, steps).client.local <==> Content(w.server, n) != [] || n in s.client.local
  {
    if n !in s.client.local && Content(w.server, n) == [] {
      EmptyNeverCreated(w, s, steps, n);
    }
    LocalStays(w, s, steps, n);
  }

  lemma {:induction false} LocalStays(w: World, s: System, steps: seq<Step>, n: Name)
    ensures n in s.client.local ==> n in Run(w, s, steps).client.local
  {
    if steps != [] {
      LocalStays(w, s, steps[..|steps| - 1], n);
    }
  }
}
