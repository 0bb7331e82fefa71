/** Clients grow idle with the server's timer, are flagged away, and come back when they do something. */
module IdleClients {
  import opened Bytes

  // ---------- The flags of a user, two bytes read as one number ----------

  type FlagIndex = i: bv16 | i < 16

  const USER_FLAG_AWAY: FlagIndex := 0

  predicate IsSet(flags: bv16, i: FlagIndex) {
    (flags >> i) & 1 == 1
  }

  function Set(flags: bv16, i: FlagIndex, on: bool): bv16 {
    if on then flags | (1 << i) else flags & !(1 << i)
  }

  lemma SetChangesOneFlag(flags: bv16, i: FlagIndex, on: bool, j: FlagIndex)
    ensures IsSet(Set(flags, i, on), j) == if i == j then on else IsSet(flags, j)
  {
  }

  // ---------- A client on its own ----------

  const IDLE_CHECK_INTERVAL: nat := 10
  const USER_IDLE_SECONDS: nat := 300

  datatype Client = Client(id: u16, flags: bv16, idle: nat, name: seq<byte>, icon: seq<byte>)

  predicate Away(c: Client) {
    IsSet(c.flags, USER_FLAG_AWAY)
  }

  /** Whether the timer is about to flag the client away. */
  predicate Leaves(c: Client) {
    c.idle + IDLE_CHECK_INTERVAL > USER_IDLE_SECONDS && !Away(c)
  }

  function Ticked(c: Client): Client {
    c.(idle := c.idle + IDLE_CHECK_INTERVAL, flags := if Leaves(c) then Set(c.flags, USER_FLAG_AWAY, true) else c.flags)
  }

  function Active(c: Client): Client {
    c.(idle := 0, flags := if Away(c) then Set(c.flags, USER_FLAG_AWAY, false) else c.flags)
  }

  function Marked(c: Client, i: FlagIndex, on: bool): Client {
    c.(flags := Set(c.flags, i, on))
  }

  // ---------- The server ----------

  /** What goes to the outbox: notices about clients, and the answers of handlers. */
  datatype Message = ChangeUser(to: u16, user: u16, flags: bv16, name: seq<byte>, icon: seq<byte>) | Answer(data: bytes)

  function Answers(answers: seq<bytes>): seq<Message> {
    seq(|answers|, i requires 0 <= i < |answers| => Answer(answers[i]))
  }

  function Notice(to: u16, c: Client): Message {
    ChangeUser(to, c.id, c.flags, c.name, c.icon)
  }

  /** One message to every client, in the order of the list, telling how c is now. */
  function Broadcast(to: seq<u16>, c: Client): seq<Message> {
    if to == [] then [] else
      var n := |to| - 1;
      Broadcast(to[..n], c) + [Notice(to[n], c)]
  }

  function IDs(clients: seq<Client>): seq<u16> {
    seq(|clients|, i requires 0 <= i < |clients| => clients[i].id)
  }

  /** What the timer sends for a client. */
  function TickNotice(to: seq<u16>, c: Client): seq<Message> {
    if Leaves(c) then Broadcast(to, Ticked(c)) else []
  }

  /** What the timer sends for the first n clients. */
  function TickNotices(to: seq<u16>, clients: seq<Client>, n: nat): seq<Message>
    requires n <= |clients|
  {
    if n == 0 then [] else TickNotices(to, clients, n - 1) + TickNotice(to, clients[n - 1])
  }

  lemma Joined(a: seq<Message>, b: seq<Message>, c: seq<Message>)
    ensures a + b + c == a + (b + c)
  {
  }

  class ClientConn {
    const ID: u16
    const Server: Server
    var Flags: bv16
    var IdleTime: nat
    var UserName: seq<byte>
    var Icon: seq<byte>

    constructor (id: u16, server: Server)
      ensures ID == id && Server == server && Value() == Client(id, 0, 0, [], [])
    {
      ID, Server, Flags, IdleTime, UserName, Icon := id, server, 0, 0, [], [];
    }

    function Value(): Client
      reads this
    {
      Client(ID, Flags, IdleTime, UserName, Icon)
    }

    /** A notice about this client to every client. */
    method SendAll()
      modifies Server`outbox
      ensures Server.outbox == old(Server.outbox) + Broadcast(IDsOf(Server.clients), Value())
    {
      var list := Server.clients;
      var i := 0;
      ghost var ids := IDsOf(Server.clients);
      assert Server.outbox == old(Server.outbox) + Broadcast(ids[..0], Value());
      while i < |list|
        invariant 0 <= i <= |list| == |ids|
        invariant Server.outbox == old(Server.outbox) + Broadcast(ids[..i], Value())
      {
        Server.outbox := Server.outbox + [ChangeUser(list[i].ID, ID, Flags, UserName, Icon)];
        assert ids[..i + 1][..i] == ids[..i];
        i := i + 1;
      }
      assert ids[..i] == ids;
    }

    /** The transaction's handler makes handled of this client and gives answers, if there is one. */
    method HandleTransaction(keepAlive: bool, handled: Client, answers: seq<bytes>)
      requires handled.id == ID
      modifies this, Server`outbox
      ensures Value() == if keepAlive then handled else Active(handled)
      ensures Server.outbox == old(Server.outbox) + (Answers(answers) +
              if !keepAlive && Away(handled) then Broadcast(IDsOf(Server.clients), Value()) else [])
    {
      ghost var before := Server.outbox;
      Flags, IdleTime, UserName, Icon := handled.flags, handled.idle, handled.name, handled.icon;
      SendAnswers(answers);
      ghost var answered := Server.outbox;
      if !keepAlive {
        IdleTime := 0;
        if IsSet(Flags, USER_FLAG_AWAY) {
          Flags := Set(Flags, USER_FLAG_AWAY, false);
          SendAll();
        }
      }
      Joined(before, Answers(answers), Server.outbox[|answered|..]);
    }

    method SendAnswers(answers: seq<bytes>)
      modifies Server`outbox
      ensures Server.outbox == old(Server.outbox) + Answers(answers)
    {
      var i := 0;
      while i < |answers|
        invariant 0 <= i <= |answers| && Server.outbox == old(Server.outbox) + Answers(answers[..i])
      {
        Server.outbox := Server.outbox + [Answer(answers[i])];
        assert Answers(answers[..i + 1]) == Answers(answers[..i]) + [Answer(answers[i])];
        i := i + 1;
      }
      assert answers[..i] == answers;
    }

    /** The timer's work for one client. */
    method Tick()
      modifies this, Server`outbox
      ensures Value() == Ticked(old(Value()))
      ensures Server.outbox == old(Server.outbox) + TickNotice(IDsOf(Server.clients), old(Value()))
    {
      IdleTime := IdleTime + IDLE_CHECK_INTERVAL;
      if IdleTime > USER_IDLE_SECONDS && !IsSet(Flags, USER_FLAG_AWAY) {
        Flags := Set(Flags, USER_FLAG_AWAY, true);
        SendAll();
      }
    }
  }

  ghost function IDsOf(list: seq<ClientConn>): (ids: seq<u16>)
    ensures |ids| == |list| && forall i :: 0 <= i < |ids| ==> ids[i] == list[i].ID
  {
    seq(|list|, i requires 0 <= i < |list| => list[i].ID)
  }

  class Server {
    var clients: seq<ClientConn>  // in the order of their IDs
    var outbox: seq<Message>

    constructor ()
      ensures clients == [] && outbox == []
    {
      clients, outbox := [], [];
    }

    ghost predicate Valid()
      reads this`clients
    {
      && (forall i :: 0 <= i < |clients| ==> clients[i].Server == this)
      && (forall i, j :: 0 <= i < j < |clients| ==> clients[i] != clients[j])
    }

    method TickAt(list: seq<ClientConn>, i: nat, ghost was: seq<Client>, ghost start: seq<Message>)
      requires Valid() && list == clients && i < |list| == |was| && ValuesAre(list, TickedList(was, i))
      requires outbox == start + TickNotices(IDsOf(list), was, i)
      modifies this`outbox, list[i]
      ensures Valid() && list == clients && ValuesAre(list, TickedList(was, i + 1))
      ensures outbox == start + TickNotices(IDsOf(list), was, i + 1)
    {
      ghost var ids := IDsOf(list);
      TickedListAt(was, i);
      list[i].Tick();
      Joined(start, TickNotices(ids, was, i), TickNotice(ids, was[i]));
    }

    /** The timer firing once; was is what the clients were before. */
    method KeepaliveTick(ghost was: seq<Client>)
      requires Valid() && ValuesAre(clients, was)
      modifies this`outbox, clients
      ensures Valid() && ValuesAre(clients, TickedList(was, |was|))
      ensures outbox == old(outbox) + TickNotices(IDsOf(clients), was, |was|)
    {
      TickAll(clients, was);
    }

    /** The loop over the list of clients. */
    method TickAll(list: seq<ClientConn>, ghost was: seq<Client>)
      requires Valid() && list == clients && ValuesAre(list, was)
      modifies this`outbox, list
      ensures Valid() && list == clients && ValuesAre(list, TickedList(was, |was|))
      ensures outbox == old(outbox) + TickNotices(IDsOf(list), was, |was|)
    {
      ghost var start := outbox;
      for i := 0 to |list|
        invariant Valid() && clients == list && |list| == |was| && ValuesAre(list, TickedList(was, i))
        invariant outbox == start + TickNotices(IDsOf(list), was, i)
      {
        TickAt(list, i, was, start);
      }
    }
  }

  ghost predicate ValuesAre(list: seq<ClientConn>, values: seq<Client>)
    reads list
  {
    |list| == |values| && forall j :: 0 <= j < |list| ==> list[j].Value() == values[j]
  }

  /** The clients after the timer's work has been done for the first n of them. */
  ghost function TickedList(was: seq<Client>, n: nat): (r: seq<Client>)
    requires n <= |was|
    ensures |r| == |was|
  {
    if n == 0 then was else TickedList(was, n - 1)[n - 1 := Ticked(was[n - 1])]
  }

  lemma {:induction false} TickedListAt(was: seq<Client>, n: nat)
    requires n <= |was|
    ensures forall j :: 0 <= j < |was| ==> TickedList(was, n)[j] == if j < n then Ticked(was[j]) else was[j]
  {
    if n > 0 {
      TickedListAt(was, n - 1);
    }
  }
}
