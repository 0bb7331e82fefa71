/** What clients see over whole runs of timer ticks and transactions, with clients joining and leaving. */
module IdleRuns {
  import opened Bytes
  import opened IdleClients

  /**
   KeepAlive and Request stand for a client's transactions, Mark for a handler that sets a flag of some client. Join
   puts a new client in the list, in place of one of that ID if there is one.
   */
  datatype Event =
    | Tick
    | Request(who: u16, answers: seq<bytes>)
    | KeepAlive(who: u16, answers: seq<bytes>)
    | Mark(who: u16, flag: FlagIndex, on: bool)
    | Join(who: u16, name: bytes, icon: bytes)
    | Leave(who: u16)

  /** No handler touches the away flag. */
  predicate Proper(e: Event) {
    e.Mark? ==> e.flag != USER_FLAG_AWAY
  }

  function NewClient(id: u16, name: bytes, icon: bytes): Client {
    Client(id, 0, 0, name, icon)
  }

  /** A client that stays, after an event. */
  function AfterOne(c: Client, e: Event): Client {
    match e
    case Tick => Ticked(c)
    case Request(who, _) => if who == c.id then Active(c) else c
    case Mark(who, flag, on) => if who == c.id then Marked(c, flag, on) else c
    case _ => c
  }

  // ---------- The list of clients ----------

  function Without(clients: seq<Client>, id: u16): seq<Client> {
    if clients == [] then []
    else if clients[0].id == id then Without(clients[1..], id)
    else [clients[0]] + Without(clients[1..], id)
  }

  /** In its place by ID. */
  function Inserted(clients: seq<Client>, c: Client): seq<Client> {
    if clients == [] || c.id < clients[0].id then [c] + clients else [clients[0]] + Inserted(clients[1..], c)
  }

  function AfterEvent(clients: seq<Client>, e: Event): seq<Client> {
    match e
    case Join(id, name, icon) => Inserted(Without(clients, id), NewClient(id, name, icon))
    case Leave(id) => Without(clients, id)
    case _ => seq(|clients|, i requires 0 <= i < |clients| => AfterOne(clients[i], e))
  }

  /** The clients at the end of a run that starts with none. */
  function After(events: seq<Event>): seq<Client> {
    if events == [] then [] else
      var n := |events| - 1;
      AfterEvent(After(events[..n]), events[n])
  }

  /** Sorted by ID, so no two with the same. */
  predicate Sorted(clients: seq<Client>) {
    forall i, j :: 0 <= i < j < |clients| ==> clients[i].id < clients[j].id
  }

  lemma SortedCons(first: Client, others: seq<Client>)
    requires Sorted(others) && forall d :: d in others ==> first.id < d.id
    ensures Sorted([first] + others)
  {
    assert forall i :: 0 <= i < |others| ==> others[i] in others;
  }

  lemma FirstIsLeast(clients: seq<Client>)
    requires Sorted(clients) && clients != []
    ensures Sorted(clients[1..]) && forall d :: d in clients[1..] ==> clients[0].id < d.id
    ensures forall d :: d in clients <==> d == clients[0] || d in clients[1..]
  {
    assert clients == [clients[0]] + clients[1..];
  }

  lemma {:induction false} WithoutIs(clients: seq<Client>, id: u16)
    requires Sorted(clients)
    ensures forall c :: c in Without(clients, id) <==> c in clients && c.id != id
    ensures Sorted(Without(clients, id))
  {
    if clients != [] {
      FirstIsLeast(clients);
      WithoutIs(clients[1..], id);
      SortedCons(clients[0], Without(clients[1..], id));
    }
  }

  lemma {:induction false} InsertedIs(clients: seq<Client>, c: Client)
    requires Sorted(clients) && forall d :: d in clients ==> d.id != c.id
    ensures Sorted(Inserted(clients, c)) && forall d :: d in Inserted(clients, c) <==> d == c || d in clients
  {
    if clients == [] {
    } else if c.id < clients[0].id {
      FirstIsLeast(clients);
      SortedCons(c, clients);
    } else {
      FirstIsLeast(clients);
      assert clients[0] in clients;
      InsertedIs(clients[1..], c);
      SortedCons(clients[0], Inserted(clients[1..], c));
    }
  }

  /** Who is there after an event, and as what. */
  lemma AfterEventIs(clients: seq<Client>, e: Event)
    requires Sorted(clients)
    ensures Sorted(AfterEvent(clients, e))
    ensures forall d :: d in AfterEvent(clients, e) ==> Joins(d, e) || exists c :: c in clients && Stays(c, d, e)
  {
    if e.Join? {
      WithoutIs(clients, e.who);
      InsertedIs(Without(clients, e.who), NewClient(e.who, e.name, e.icon));
    } else if e.Leave? {
      WithoutIs(clients, e.who);
    }
    forall d | d in AfterEvent(clients, e) && !Joins(d, e)
      ensures exists c :: c in clients && Stays(c, d, e)
    {
      if e.Join? || e.Leave? {
        assert d in clients && Stays(d, d, e);
      } else {
        var i :| 0 <= i < |clients| && AfterEvent(clients, e)[i] == d;
        assert clients[i] in clients && Stays(clients[i], d, e);
      }
    }
  }

  predicate Joins(d: Client, e: Event) {
    e.Join? && d == NewClient(e.who, e.name, e.icon)
  }

  /** d is c after an event that c has stayed for. */
  predicate Stays(c: Client, d: Client, e: Event) {
    d == AfterOne(c, e) && d.id == c.id && (e.Join? || e.Leave? ==> e.who != c.id)
  }

  lemma {:induction false} AfterSorted(events: seq<Event>)
    ensures Sorted(After(events))
  {
    if events != [] {
      var n := |events| - 1;
      AfterSorted(events[..n]);
      AfterEventIs(After(events[..n]), events[n]);
    }
  }

  // ---------- Idle time and the away flag ----------

  /** How often the timer fired since the client of this ID joined or last did something. */
  function TicksSince(events: seq<Event>, id: u16): nat {
    if events == [] then 0 else
      var n := |events| - 1;
      var e := events[n];
      if (e.Request? || e.Join?) && e.who == id then 0
      else TicksSince(events[..n], id) + if e.Tick? then 1 else 0
  }

  /** The client has been idle for that many ticks, and is away accordingly. */
  predicate IdleFor(c: Client, ticks: nat) {
    && c.idle == IDLE_CHECK_INTERVAL * ticks
    && (Away(c) <==> c.idle > USER_IDLE_SECONDS)
  }

  lemma OneIdleFor(c: Client, e: Event, ticks: nat)
    requires IdleFor(c, ticks) && Proper(e)
    ensures IdleFor(AfterOne(c, e), if e.Request? && e.who == c.id then 0 else ticks + if e.Tick? then 1 else 0)
  {
    match e
    case Tick =>
      SetChangesOneFlag(c.flags, USER_FLAG_AWAY, true, USER_FLAG_AWAY);
    case Request(_, _) =>
      SetChangesOneFlag(c.flags, USER_FLAG_AWAY, false, USER_FLAG_AWAY);
    case Mark(_, flag, on) =>
      SetChangesOneFlag(c.flags, flag, on, USER_FLAG_AWAY);
    case _ =>
  }

  /**
   At every point of every run, every client's idle time is ten times the ticks since it joined or last did something,
   and it is away exactly when that is more than the limit: from the 31st tick on.
   */
  lemma {:induction false} AwayExactlyWhenIdle(events: seq<Event>, c: Client)
    requires c in After(events) && forall e :: e in events ==> Proper(e)
    ensures IdleFor(c, TicksSince(events, c.id)) && (Away(c) <==> TicksSince(events, c.id) >= 31)
  {
    var n := |events| - 1;
    var before, e := After(events[..n]), events[n];
    AfterSorted(events[..n]);
    AfterEventIs(before, e);
    if Joins(c, e) {
      NobodyAway(c);
    } else {
      var b :| b in before && Stays(b, c, e);
      AwayExactlyWhenIdle(events[..n], b);
      OneIdleFor(b, e, TicksSince(events[..n], b.id));
    }
  }

  lemma NobodyAway(c: Client)
    requires c.flags == 0
    ensures !Away(c)
  {
  }

  /**
   A client turns away exactly at the 31st tick since it joined or last did something, and comes back when it next
   does something.
   */
  lemma TurnsAwayAtTick31(events: seq<Event>, e: Event, b: Client)
    requires b in After(events) && Proper(e) && forall e :: e in events ==> Proper(e)
    ensures !Away(b) && Away(AfterOne(b, e)) <==> e.Tick? && TicksSince(events, b.id) == 30
    ensures Away(b) && !Away(AfterOne(b, e)) <==> e.Request? && e.who == b.id && TicksSince(events, b.id) >= 31
  {
    AwayExactlyWhenIdle(events, b);
    OneIdleFor(b, e, TicksSince(events, b.id));
  }

  // ---------- The other flags ----------

  /** What the last handler that set the flag made of it since the client joined. */
  predicate LastMark(events: seq<Event>, id: u16, flag: FlagIndex) {
    events != [] &&
    var n := |events| - 1;
    var e := events[n];
    if e.Mark? && e.who == id && e.flag == flag then e.on
    else !(e.Join? && e.who == id) && LastMark(events[..n], id, flag)
  }

  lemma OneKeepsFlag(c: Client, e: Event, flag: FlagIndex)
    requires flag != USER_FLAG_AWAY
    ensures IsSet(AfterOne(c, e).flags, flag) ==
            if e.Mark? && e.who == c.id && e.flag == flag then e.on else IsSet(c.flags, flag)
  {
    SetChangesOneFlag(c.flags, USER_FLAG_AWAY, true, flag);
    SetChangesOneFlag(c.flags, USER_FLAG_AWAY, false, flag);
    if e.Mark? {
      SetChangesOneFlag(c.flags, e.flag, e.on, flag);
    }
  }

  /** Ticks, keepalives and other transactions never change another flag: only handlers do. */
  lemma {:induction false} OtherFlagsKept(events: seq<Event>, c: Client, flag: FlagIndex)
    requires c in After(events) && flag != USER_FLAG_AWAY
    ensures IsSet(c.flags, flag) == LastMark(events, c.id, flag)
  {
    var n := |events| - 1;
    var before, e := After(events[..n]), events[n];
    AfterSorted(events[..n]);
    AfterEventIs(before, e);
    if Joins(c, e) {
      NothingSet(flag);
    } else {
      var b :| b in before && Stays(b, c, e);
      OtherFlagsKept(events[..n], b, flag);
      OneKeepsFlag(b, e, flag);
    }
  }

  lemma NothingSet(flag: FlagIndex)
    ensures !IsSet(0, flag)
  {
  }

  // ---------- The notices ----------

  /** What the server sends at an event. */
  function Sent(clients: seq<Client>, e: Event): seq<Message> {
    match e
    case Tick => TickNotices(IDs(clients), clients, |clients|)
    case KeepAlive(_, answers) => Answers(answers)
    case Request(who, answers) => Answers(answers) + ReturnNotices(IDs(clients), clients, who)
    case _ => []
  }

  /** What goes out about a client that does something: a notice to everyone if it was away. */
  function ReturnNotices(to: seq<u16>, clients: seq<Client>, who: u16): seq<Message> {
    if clients == [] then []
    else if clients[0].id == who then if Away(clients[0]) then Broadcast(to, Active(clients[0])) else []
    else ReturnNotices(to, clients[1..], who)
  }

  /** The event Tick is what the timer's loop does to the clients. */
  lemma TickIsTheLoop(clients: seq<Client>)
    ensures AfterEvent(clients, Tick) == TickedList(clients, |clients|)
    ensures Sent(clients, Tick) == TickNotices(IDs(clients), clients, |clients|)
  {
    TickedListAt(clients, |clients|);
  }

  /** A request is what handling a transaction does to its client, by ID; no other client changes. */
  lemma RequestIsHandled(clients: seq<Client>, i: nat, answers: seq<bytes>)
    requires Sorted(clients) && i < |clients|
    ensures var c, e := clients[i], Request(clients[i].id, answers);
            && AfterEvent(clients, e) == clients[i := Active(c)]
            && Sent(clients, e) == Answers(answers) + if Away(c) then Broadcast(IDs(clients), Active(c)) else []
  {
    ReturnNoticesAt(IDs(clients), clients, i);
  }

  lemma {:induction false} ReturnNoticesAt(to: seq<u16>, clients: seq<Client>, i: nat)
    requires Sorted(clients) && i < |clients|
    ensures ReturnNotices(to, clients, clients[i].id) ==
            if Away(clients[i]) then Broadcast(to, Active(clients[i])) else []
  {
    if i > 0 {
      ReturnNoticesAt(to, clients[1..], i - 1);
    }
  }

  function Outbox(events: seq<Event>): seq<Message> {
    if events == [] then [] else
      var n := |events| - 1;
      Outbox(events[..n]) + Sent(After(events[..n]), events[n])
  }

  predicate Turned(c: Client, e: Event) {
    Away(c) != Away(AfterOne(c, e))
  }

  /** The client of this ID turns away or comes back with the event. */
  predicate Turns(clients: seq<Client>, e: Event, id: u16) {
    exists c :: c in clients && c.id == id && Turned(c, e)
  }

  /** How often the client called user turned away or came back while the one called to was there. */
  function TurnsSeen(events: seq<Event>, to: u16, user: u16): nat {
    if events == [] then 0 else
      var n := |events| - 1;
      var before := After(events[..n]);
      TurnsSeen(events[..n], to, user) + if to in IDs(before) && Turns(before, events[n], user) then 1 else 0
  }

  /** How many notices about a user go to a client. */
  function Notices(ms: seq<Message>, to: u16, user: u16): nat {
    if ms == [] then 0 else
      var n := |ms| - 1;
      Notices(ms[..n], to, user) + if ms[n].ChangeUser? && ms[n].to == to && ms[n].user == user then 1 else 0
  }

  lemma {:induction false} NoticesAdd(a: seq<Message>, b: seq<Message>, to: u16, user: u16)
    ensures Notices(a + b, to, user) == Notices(a, to, user) + Notices(b, to, user)
  {
    if b == [] {
      assert a + b == a;
    } else {
      var n := |b| - 1;
      assert (a + b)[..|a| + n] == a + b[..n];
      NoticesAdd(a, b[..n], to, user);
    }
  }

  lemma {:induction false} NoNotices(ms: seq<Message>, to: u16, user: u16)
    requires forall m :: m in ms ==> m.Answer?
    ensures Notices(ms, to, user) == 0
  {
    if ms != [] {
      var n := |ms| - 1;
      assert ms[n] in ms;
      NoNotices(ms[..n], to, user);
    }
  }

  predicate DistinctIDs(ids: seq<u16>) {
    forall i, j :: 0 <= i < j < |ids| ==> ids[i] != ids[j]
  }

  lemma {:induction false} BroadcastOnce(ids: seq<u16>, c: Client, to: u16, user: u16)
    requires DistinctIDs(ids)
    ensures Notices(Broadcast(ids, c), to, user) == if to in ids && c.id == user then 1 else 0
  {
    if ids != [] {
      var n := |ids| - 1;
      BroadcastOnce(ids[..n], c, to, user);
      NoticesAdd(Broadcast(ids[..n], c), [Notice(ids[n], c)], to, user);
    }
  }

  lemma TickNoticeOnce(ids: seq<u16>, c: Client, to: u16, user: u16)
    requires DistinctIDs(ids)
    ensures Notices(TickNotice(ids, c), to, user) == if to in ids && c.id == user && Leaves(c) then 1 else 0
  {
    if Leaves(c) {
      BroadcastOnce(ids, Ticked(c), to, user);
    }
  }

  /** Among the first n clients there is one of this ID that the timer flags away. */
  predicate OneLeaves(clients: seq<Client>, n: nat, user: u16)
    requires n <= |clients|
  {
    exists i :: 0 <= i < n && clients[i].id == user && Leaves(clients[i])
  }

  lemma {:induction false} TickNoticesOnce(ids: seq<u16>, clients: seq<Client>, n: nat, to: u16, user: u16)
    requires DistinctIDs(ids) && Sorted(clients) && n <= |clients|
    ensures Notices(TickNotices(ids, clients, n), to, user) == if to in ids && OneLeaves(clients, n, user) then 1 else 0
  {
    if n > 0 {
      var last := clients[n - 1];
      TickNoticesOnce(ids, clients, n - 1, to, user);
      TickNoticeOnce(ids, last, to, user);
      NoticesAdd(TickNotices(ids, clients, n - 1), TickNotice(ids, last), to, user);
      OneLeavesStep(clients, n, user);
    }
  }

  lemma OneLeavesStep(clients: seq<Client>, n: nat, user: u16)
    requires Sorted(clients) && 0 < n <= |clients|
    ensures var last := clients[n - 1].id == user && Leaves(clients[n - 1]);
            && (OneLeaves(clients, n, user) <==> last || OneLeaves(clients, n - 1, user))
            && !(last && OneLeaves(clients, n - 1, user))
  {
    if clients[n - 1].id == user && Leaves(clients[n - 1]) {
      assert OneLeaves(clients, n, user);
    }
  }

  /** There is an away client of this ID. */
  predicate OneAway(clients: seq<Client>, user: u16) {
    exists c :: c in clients && c.id == user && Away(c)
  }

  lemma {:induction false} ReturnNoticesOnce(ids: seq<u16>, clients: seq<Client>, who: u16, to: u16, user: u16)
    requires DistinctIDs(ids) && Sorted(clients)
    ensures Notices(ReturnNotices(ids, clients, who), to, user) ==
            if to in ids && who == user && OneAway(clients, user) then 1 else 0
  {
    if clients != [] {
      assert clients == [clients[0]] + clients[1..];
      if clients[0].id == who {
        assert forall c :: c in clients[1..] ==> c.id > who;
        if Away(clients[0]) {
          BroadcastOnce(ids, Active(clients[0]), to, user);
          assert OneAway(clients, who);
        } else {
          assert !OneAway(clients, who);
        }
      } else {
        ReturnNoticesOnce(ids, clients[1..], who, to, user);
        assert OneAway(clients, who) <==> OneAway(clients[1..], who);
      }
    }
  }

  lemma TurnOf(c: Client, e: Event)
    requires Proper(e)
    ensures Turned(c, e) <==> (e.Tick? && Leaves(c)) || (e.Request? && e.who == c.id && Away(c))
  {
    SetChangesOneFlag(c.flags, USER_FLAG_AWAY, true, USER_FLAG_AWAY);
    SetChangesOneFlag(c.flags, USER_FLAG_AWAY, false, USER_FLAG_AWAY);
    if e.Mark? {
      SetChangesOneFlag(c.flags, e.flag, e.on, USER_FLAG_AWAY);
    }
  }

  lemma TurnsOf(clients: seq<Client>, e: Event, user: u16)
    requires Proper(e)
    ensures Turns(clients, e, user) <==>
            (e.Tick? && OneLeaves(clients, |clients|, user)) || (e.Request? && e.who == user && OneAway(clients, user))
  {
    forall c
      ensures Turned(c, e) <==> (e.Tick? && Leaves(c)) || (e.Request? && e.who == c.id && Away(c))
    {
      TurnOf(c, e);
    }
    if OneLeaves(clients, |clients|, user) {
      var i :| 0 <= i < |clients| && clients[i].id == user && Leaves(clients[i]);
      assert clients[i] in clients;
    }
  }

  lemma SortedIDs(clients: seq<Client>)
    requires Sorted(clients)
    ensures DistinctIDs(IDs(clients))
  {
  }

  lemma SentOnce(clients: seq<Client>, e: Event, to: u16, user: u16)
    requires Sorted(clients) && Proper(e)
    ensures Notices(Sent(clients, e), to, user) == if to in IDs(clients) && Turns(clients, e, user) then 1 else 0
  {
    var ids := IDs(clients);
    SortedIDs(clients);
    TurnsOf(clients, e, user);
    match e
    case Tick =>
      TickNoticesOnce(ids, clients, |clients|, to, user);
    case KeepAlive(_, answers) =>
      NoNotices(Answers(answers), to, user);
    case Request(who, answers) =>
      NoNotices(Answers(answers), to, user);
      ReturnNoticesOnce(ids, clients, who, to, user);
      NoticesAdd(Answers(answers), ReturnNotices(ids, clients, who), to, user);
    case _ =>
  }

  /**
   Over any run, with clients joining and leaving, a client is sent exactly one notice about another, or itself, for
   each time that one turns away or comes back while it is there.
   */
  lemma {:induction false} OneNoticePerTurn(events: seq<Event>, to: u16, user: u16)
    requires forall e :: e in events ==> Proper(e)
    ensures Notices(Outbox(events), to, user) == TurnsSeen(events, to, user)
  {
    if events != [] {
      var n := |events| - 1;
      var before := After(events[..n]);
      OneNoticePerTurn(events[..n], to, user);
      AfterSorted(events[..n]);
      SentOnce(before, events[n], to, user);
      NoticesAdd(Outbox(events[..n]), Sent(before, events[n]), to, user);
    }
  }
}
