/** The transfers in progress: one table for the server, and per client one for every type of transfer. */
module TransferTables {
  import opened Bytes

  datatype FileTransferType = FileDownload | FileUpload | FolderDownload | FolderUpload | BannerDownload

  const ALL_TYPES: set<FileTransferType> := {FileDownload, FileUpload, FolderDownload, FolderUpload, BannerDownload}

  class FileTransfer {
    var RefNum: u32
    const Type: FileTransferType
    const Client: ClientFileTransferMgr

    constructor (kind: FileTransferType, client: ClientFileTransferMgr)
      ensures Type == kind && Client == client && RefNum == 0
    {
      RefNum, Type, Client := 0, kind, client;
    }
  }

  type Table = map<u32, FileTransfer>

  function Put(t: Table, id: u32, ft: FileTransfer): Table {
    t[id := ft]
  }

  /** The transfers of a table, in the given order of their numbers. */
  ghost predicate Lists(list: seq<FileTransfer>, order: seq<u32>, t: Table) {
    && |list| == |order|
    && (forall id :: id in order <==> id in t)
    && (forall i :: 0 <= i < |list| ==> order[i] in t && list[i] == t[order[i]])
  }

  ghost predicate Has(t: Table, id: u32, ft: FileTransfer) {
    id in t && t[id] == ft
  }

  class ClientFileTransferMgr {
    var transfers: map<FileTransferType, Table>

    ghost predicate Valid()
      reads this
    {
      transfers.Keys == ALL_TYPES
    }

    constructor ()
      ensures Valid() && forall t :: t in transfers ==> transfers[t] == map[]
    {
      transfers := map t | t in ALL_TYPES :: map[];
    }

    method Add(ftType: FileTransferType, ft: FileTransfer)
      requires Valid()
      modifies this
      ensures Valid() && ftType in old(transfers)
      ensures transfers == old(transfers)[ftType := Put(old(transfers)[ftType], ft.RefNum, ft)]
    {
      EveryType(ftType);
      transfers := transfers[ftType := Put(transfers[ftType], ft.RefNum, ft)];
    }

    method Delete(ftType: FileTransferType, id: u32)
      requires Valid()
      modifies this
      ensures Valid() && ftType in old(transfers)
      ensures transfers == old(transfers)[ftType := old(transfers)[ftType] - {id}]
    {
      EveryType(ftType);
      transfers := transfers[ftType := transfers[ftType] - {id}];
    }

    /** The transfers of a type, in whatever order a range loop meets them. */
    method Get(ftType: FileTransferType) returns (list: seq<FileTransfer>)
      requires Valid()
      ensures ftType in transfers && |list| == |transfers[ftType]|
      ensures exists order :: Lists(list, order, transfers[ftType])
    {
      EveryType(ftType);
      var fts := transfers[ftType];
      list := [];
      ghost var order: seq<u32> := [];
      var rest := fts.Keys;
      while rest != {}
        invariant |order| + |rest| == |fts| && |list| == |order| && rest <= fts.Keys
        invariant forall id :: id in fts <==> (id in order || id in rest)
        invariant forall i :: 0 <= i < |list| ==> order[i] in fts && list[i] == fts[order[i]]
        decreases rest
      {
        var id :| id in rest;
        list, order, rest := list + [fts[id]], order + [id], rest - {id};
      }
      assert Lists(list, order, fts);
    }
  }

  lemma EveryType(k: FileTransferType)
    ensures k in ALL_TYPES
  {
  }

  // ---------- Both kinds of table ----------

  /** Whose table of what. */
  datatype Owner = Owner(client: ClientFileTransferMgr, kind: FileTransferType)

  /** What each connected client holds. */
  type Holdings = map<ClientFileTransferMgr, map<FileTransferType, Table>>

  datatype Tables = Tables(server: Table, held: Holdings)

  ghost function OwnerOf(ft: FileTransfer): Owner {
    Owner(ft.Client, ft.Type)
  }

  ghost function Held(h: Holdings, o: Owner): Table {
    if o.client in h && o.kind in h[o.client] then h[o.client][o.kind] else map[]
  }

  ghost function Holding(h: Holdings, o: Owner, t: Table): Holdings
    requires o.client in h
  {
    h[o.client := h[o.client][o.kind := t]]
  }

  lemma HeldAfter(h: Holdings, o: Owner, t: Table, q: Owner)
    requires o.client in h
    ensures Held(Holding(h, o, t), q) == if q == o then t else Held(h, q)
  {
  }

  /** What the server's table has of one client and type. */
  ghost function OwnedBy(server: Table, o: Owner): Table {
    map id | id in server && OwnerOf(server[id]) == o :: server[id]
  }

  ghost predicate Connected(t: Tables) {
    forall id :: id in t.server ==> t.server[id].Client in t.held
  }

  /** Every client's table of a type is what the server has of that client and type. */
  ghost predicate Agree(t: Tables) {
    Connected(t) && forall c, k :: c in t.held ==> Held(t.held, Owner(c, k)) == OwnedBy(t.server, Owner(c, k))
  }

  ghost function Added(t: Tables, id: u32, ft: FileTransfer): Tables
    requires ft.Client in t.held
  {
    Tables(Put(t.server, id, ft), Holding(t.held, OwnerOf(ft), Put(Held(t.held, OwnerOf(ft)), id, ft)))
  }

  ghost function Deleted(t: Tables, id: u32): Tables
    requires id in t.server && t.server[id].Client in t.held
  {
    var o := OwnerOf(t.server[id]);
    Tables(t.server - {id}, Holding(t.held, o, Held(t.held, o) - {id}))
  }

  /** A reference number that is new, or was that of a transfer of the same client and type. */
  ghost predicate Harmless(server: Table, id: u32, ft: FileTransfer) {
    id in server ==> OwnerOf(server[id]) == OwnerOf(ft)
  }

  lemma OwnedAfterAdd(server: Table, id: u32, ft: FileTransfer, o: Owner)
    requires Harmless(server, id, ft)
    ensures OwnedBy(Put(server, id, ft), o) ==
            if o == OwnerOf(ft) then Put(OwnedBy(server, o), id, ft) else OwnedBy(server, o)
  {
  }

  lemma OwnedAfterDelete(server: Table, id: u32, o: Owner)
    requires id in server
    ensures OwnedBy(server - {id}, o) ==
            if o == OwnerOf(server[id]) then OwnedBy(server, o) - {id} else OwnedBy(server, o)
  {
  }

  lemma HarmlessAddAgrees(t: Tables, id: u32, ft: FileTransfer)
    requires Agree(t) && ft.Client in t.held && Harmless(t.server, id, ft)
    ensures Agree(Added(t, id, ft))
  {
    var own := OwnerOf(ft);
    var mine := Put(Held(t.held, own), id, ft);
    forall c, k | c in t.held
      ensures Held(Added(t, id, ft).held, Owner(c, k)) == OwnedBy(Put(t.server, id, ft), Owner(c, k))
    {
      var o := Owner(c, k);
      HeldAfter(t.held, own, mine, o);
      OwnedAfterAdd(t.server, id, ft, o);
      assert Held(t.held, o) == OwnedBy(t.server, o);
    }
  }

  lemma HarmfulAddDisagrees(t: Tables, id: u32, ft: FileTransfer)
    requires Agree(t) && ft.Client in t.held && !Harmless(t.server, id, ft)
    ensures !Agree(Added(t, id, ft))
  {
    var was, own := OwnerOf(t.server[id]), OwnerOf(ft);
    HeldAfter(t.held, own, Put(Held(t.held, own), id, ft), was);
    assert Held(t.held, was) == OwnedBy(t.server, was);
    assert id in OwnedBy(t.server, was);
    assert id !in OwnedBy(Put(t.server, id, ft), was);
  }

  /**
   Adding keeps the tables in agreement exactly when the reference number is new, or was that of a
   transfer of the same client and type: otherwise the transfer it replaces stays in its client's table.
   */
  lemma AddAgrees(t: Tables, id: u32, ft: FileTransfer)
    requires Agree(t) && ft.Client in t.held
    ensures Agree(Added(t, id, ft)) <==> Harmless(t.server, id, ft)
  {
    if Harmless(t.server, id, ft) {
      HarmlessAddAgrees(t, id, ft);
    } else {
      HarmfulAddDisagrees(t, id, ft);
    }
  }

  lemma DeleteAgrees(t: Tables, id: u32)
    requires Agree(t) && id in t.server
    ensures Agree(Deleted(t, id))
  {
    var own := OwnerOf(t.server[id]);
    var mine := Held(t.held, own) - {id};
    forall c, k | c in t.held ensures Held(Deleted(t, id).held, Owner(c, k)) == OwnedBy(t.server - {id}, Owner(c, k)) {
      var o := Owner(c, k);
      HeldAfter(t.held, own, mine, o);
      OwnedAfterDelete(t.server, id, o);
      assert Held(t.held, o) == OwnedBy(t.server, o);
    }
  }

  /**
   With the tables in agreement, a transfer is in the server's table exactly when its own client has it
   under its own type and no other table of a client does.
   */
  lemma ListedWhereItBelongs(t: Tables, id: u32, ft: FileTransfer)
    requires Agree(t) && ft.Client in t.held
    ensures Has(t.server, id, ft) <==>
            (forall c, k :: c in t.held ==> (Has(Held(t.held, Owner(c, k)), id, ft) <==> Owner(c, k) == OwnerOf(ft)))
  {
    var own := OwnerOf(ft);
    assert Held(t.held, own) == OwnedBy(t.server, own);
    if Has(t.server, id, ft) {
      forall c, k | c in t.held ensures Has(Held(t.held, Owner(c, k)), id, ft) <==> Owner(c, k) == own {
        assert Held(t.held, Owner(c, k)) == OwnedBy(t.server, Owner(c, k));
      }
    } else {
      assert !Has(Held(t.held, own), id, ft);
    }
  }

  // ---------- The server's manager ----------

  class MemFileTransferMgr {
    var fileTransfers: Table
    ghost const Clients: set<ClientFileTransferMgr>  // of the connected clients

    ghost predicate Valid()
      reads this, Clients
    {
      && (forall c :: c in Clients ==> c.Valid())
      && (forall id :: id in fileTransfers ==> fileTransfers[id].Client in Clients)
    }

    ghost function View(): Tables
      reads this, Clients
    {
      Tables(fileTransfers, map c | c in Clients :: c.transfers)
    }

    twostate lemma OnlyOneChanged(client: ClientFileTransferMgr)
      requires client in Clients
      requires forall c :: c in Clients && c != client ==> c.transfers == old(c.transfers)
      ensures View().held == old(View()).held[client := client.transfers]
    {
    }

    constructor (ghost clients: set<ClientFileTransferMgr>)
      requires forall c :: c in clients ==> c.Valid()
      ensures Valid() && fileTransfers == map[] && Clients == clients
    {
      fileTransfers, Clients := map[], clients;
    }

    /** ref is what the random source gives. */
    method Add(ft: FileTransfer, ref: u32)
      requires Valid() && ft.Client in Clients
      modifies this, ft, ft.Client
      ensures Valid() && ft.RefNum == ref
      ensures View() == Added(old(View()), ref, ft)
    {
      EveryType(ft.Type);
      ft.RefNum := ref;
      fileTransfers := Put(fileTransfers, ft.RefNum, ft);
      ft.Client.Add(ft.Type, ft);
      OnlyOneChanged(ft.Client);
    }

    /** The transfer a reference number stands for, if any: a connection that names no transfer gets nil. */
    method Get(id: u32) returns (ft: FileTransfer?)
      ensures id !in fileTransfers ==> ft == null
      ensures id in fileTransfers ==> ft == fileTransfers[id]
    {
      if id in fileTransfers {
        return fileTransfers[id];
      }
      return null;
    }

    /** ok is false where the number stands for no transfer, so that the nil transfer's client is followed: a panic. */
    method Delete(id: u32) returns (ok: bool)
      requires Valid()
      modifies this, Clients
      ensures Valid() && (ok <==> id in old(fileTransfers))
      ensures View() == if ok then Deleted(old(View()), id) else old(View())
    {
      ok := id in fileTransfers;
      if ok {
        Remove(id, fileTransfers[id]);
      }
    }

    method Remove(id: u32, ft: FileTransfer)
      requires Valid() && id in fileTransfers && ft == fileTransfers[id]
      modifies this, ft.Client
      ensures Valid() && View() == Deleted(old(View()), id)
    {
      ft.Client.Delete(ft.Type, id);
      fileTransfers := fileTransfers - {id};
      OnlyOneChanged(ft.Client);
      assert View().held == Deleted(old(View()), id).held;
    }
  }

  // ---------- Runs ----------

  datatype Op = Add(id: u32, ft: FileTransfer) | Delete(id: u32)

  /** The tables after one operation; a panicking Delete changes nothing. */
  ghost function Step(t: Tables, op: Op): Tables
    requires op.Add? ==> op.ft.Client in t.held
    requires Connected(t)
  {
    if op.Add? then Added(t, op.id, op.ft)
    else if op.id in t.server then Deleted(t, op.id)
    else t
  }

  /** A run: each operation works for a connected client, and takes the tables to the next ones. */
  ghost predicate IsRun(states: seq<Tables>, ops: seq<Op>) {
    && |states| == |ops| + 1
    && Connected(states[0])
    && (forall i :: 0 <= i < |ops| ==> Runs(states[i], ops[i], states[i + 1]))
  }

  ghost predicate Runs(t: Tables, op: Op, t': Tables) {
    && (op.Add? ==> op.ft.Client in t.held)
    && Connected(t)
    && t' == Step(t, op)
  }

  /**
   The tables agree at every point of a run that starts in agreement exactly when no Add reused the number of
   another owner's transfer.
   */
  lemma {:induction false} RunAgrees(states: seq<Tables>, ops: seq<Op>)
    requires IsRun(states, ops) && Agree(states[0])
    ensures (forall i :: 0 <= i <= |ops| ==> Agree(states[i])) <==>
            (forall i :: 0 <= i < |ops| && ops[i].Add? ==> Harmless(states[i].server, ops[i].id, ops[i].ft))
  {
    if forall i :: 0 <= i < |ops| && ops[i].Add? ==> Harmless(states[i].server, ops[i].id, ops[i].ft) {
      HarmlessRunAgrees(states, ops, |ops|);
    } else {
      var i :| 0 <= i < |ops| && ops[i].Add? && !Harmless(states[i].server, ops[i].id, ops[i].ft);
      assert Runs(states[i], ops[i], states[i + 1]);
      if Agree(states[i]) {
        AddAgrees(states[i], ops[i].id, ops[i].ft);
      }
    }
  }

  lemma {:induction false} HarmlessRunAgrees(states: seq<Tables>, ops: seq<Op>, n: nat)
    requires IsRun(states, ops) && Agree(states[0]) && n <= |ops|
    requires forall i :: 0 <= i < n && ops[i].Add? ==> Harmless(states[i].server, ops[i].id, ops[i].ft)
    ensures forall i :: 0 <= i <= n ==> Agree(states[i])
  {
    if n > 0 {
      HarmlessRunAgrees(states, ops, n - 1);
      assert Runs(states[n - 1], ops[n - 1], states[n]);
      StepAgrees(states[n - 1], ops[n - 1]);
    }
  }

  lemma StepAgrees(t: Tables, op: Op)
    requires Agree(t) && (op.Add? ==> op.ft.Client in t.held && Harmless(t.server, op.id, op.ft))
    ensures Agree(Step(t, op))
  {
    if op.Add? {
      AddAgrees(t, op.id, op.ft);
    } else if op.id in t.server {
      DeleteAgrees(t, op.id);
    }
  }

  // ---------- What the tables hold ----------

  /** Every other number stands for what it stood for. */
  predicate SameBut(a: Table, b: Table, id: u32) {
    forall k: u32 :: k != id ==> (k in a <==> k in b) && (k in a ==> b[k] == a[k])
  }

  /** A deleted number is in no table, the server's or a client's, and every other is where it was. */
  lemma DeletedEverywhere(t: Tables, id: u32)
    requires Agree(t)
    ensures var t' := Step(t, Delete(id));
            && id !in t'.server && SameBut(t.server, t'.server, id)
            && forall o :: id !in Held(t'.held, o) && SameBut(Held(t.held, o), Held(t'.held, o), id)
  {
    var t' := Step(t, Delete(id));
    forall o
      ensures id !in Held(t'.held, o) && SameBut(Held(t.held, o), Held(t'.held, o), id)
    {
      HeldInAgreement(t, id, o);
      if id in t.server {
        var own := OwnerOf(t.server[id]);
        HeldAfter(t.held, own, Held(t.held, own) - {id}, o);
      }
    }
  }

  /** With the tables in agreement, a client's table has a number only as the server has it. */
  lemma HeldInAgreement(t: Tables, id: u32, o: Owner)
    requires Agree(t)
    ensures id in Held(t.held, o) <==> o.client in t.held && id in t.server && OwnerOf(t.server[id]) == o
  {
    if o.client in t.held {
      assert Held(t.held, Owner(o.client, o.kind)) == OwnedBy(t.server, o);
    }
  }

  /** An added transfer is in the server's table and its own client's, and no other number or table changes. */
  lemma AddedWhereItBelongs(t: Tables, id: u32, ft: FileTransfer)
    requires Connected(t) && ft.Client in t.held
    ensures var t' := Step(t, Add(id, ft));
            && Has(t'.server, id, ft) && SameBut(t.server, t'.server, id)
            && Has(Held(t'.held, OwnerOf(ft)), id, ft)
            && SameBut(Held(t.held, OwnerOf(ft)), Held(t'.held, OwnerOf(ft)), id)
            && forall o :: o != OwnerOf(ft) ==> Held(t'.held, o) == Held(t.held, o)
  {
    var own := OwnerOf(ft);
    forall o
      ensures Held(Step(t, Add(id, ft)).held, o) == if o == own then Put(Held(t.held, own), id, ft) else Held(t.held, o)
    {
      HeldAfter(t.held, own, Put(Held(t.held, own), id, ft), o);
    }
  }

  datatype LastOp = NoOp | Last(op: Op)

  /** The last of the first n operations on a number. */
  function LastOn(ops: seq<Op>, n: nat, id: u32): LastOp
    requires n <= |ops|
  {
    if n == 0 then NoOp else if ops[n - 1].id == id then Last(ops[n - 1]) else LastOn(ops, n - 1, id)
  }

  lemma StepShows(t: Tables, op: Op, id: u32, ft: FileTransfer)
    requires Connected(t) && (op.Add? ==> op.ft.Client in t.held)
    ensures Has(Step(t, op).server, id, ft) <==> if op.id == id then op == Add(id, ft) else Has(t.server, id, ft)
  {
  }

  /**
   In a run that starts with an empty table, a transfer is in the server's table under a number if and only if the last
   operation on that number was its own Add.
   */
  lemma {:induction false} ListedSinceAdded(states: seq<Tables>, ops: seq<Op>, n: nat, id: u32, ft: FileTransfer)
    requires IsRun(states, ops) && n <= |ops| && states[0].server == map[]
    ensures Has(states[n].server, id, ft) <==> LastOn(ops, n, id) == Last(Add(id, ft))
  {
    if n > 0 {
      ListedSinceAdded(states, ops, n - 1, id, ft);
      assert Runs(states[n - 1], ops[n - 1], states[n]);
      StepShows(states[n - 1], ops[n - 1], id, ft);
    }
  }

  /** When no Add reused another owner's number, so is it in its own client's table, under its type, and in no other. */
  lemma HeldSinceAdded(states: seq<Tables>, ops: seq<Op>, n: nat, id: u32, ft: FileTransfer, o: Owner)
    requires IsRun(states, ops) && n <= |ops| && states[0].server == map[] && Agree(states[0])
    requires forall i :: 0 <= i < |ops| && ops[i].Add? ==> Harmless(states[i].server, ops[i].id, ops[i].ft)
    ensures Has(Held(states[n].held, o), id, ft) <==> LastOn(ops, n, id) == Last(Add(id, ft)) && o == OwnerOf(ft)
  {
    RunAgrees(states, ops);
    ListedSinceAdded(states, ops, n, id, ft);
    var t := states[n];
    HeldInAgreement(t, id, o);
    if o.client in t.held {
      assert Held(t.held, Owner(o.client, o.kind)) == OwnedBy(t.server, o);
    }
  }
}
