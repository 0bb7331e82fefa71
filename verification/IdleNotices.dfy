/** What the messages of a run say: who is there, what clients are told of each other, and the answers they get. */
module IdleNotices {
  import opened Bytes
  import opened IdleClients
  import opened IdleRuns

  // ---------- Who is there ----------

  datatype Entry = NotThere | There(name: bytes, icon: bytes)

  /** How the last to come or go under an ID left it. */
  function LastEntry(events: seq<Event>, id: u16): Entry {
    if events == [] then NotThere else
      var n := |events| - 1;
      var e := events[n];
      if e.Join? && e.who == id then There(e.name, e.icon)
      else if e.Leave? && e.who == id then NotThere
      else LastEntry(events[..n], id)
  }

  lemma StaysThere(clients: seq<Client>, e: Event, c: Client)
    requires Sorted(clients) && c in clients && (e.Join? || e.Leave? ==> e.who != c.id)
    ensures AfterOne(c, e) in AfterEvent(clients, e)
  {
    if e.Join? {
      WithoutIs(clients, e.who);
      InsertedIs(Without(clients, e.who), NewClient(e.who, e.name, e.icon));
    } else if e.Leave? {
      WithoutIs(clients, e.who);
    } else {
      var i :| 0 <= i < |clients| && clients[i] == c;
      assert AfterEvent(clients, e)[i] == AfterOne(c, e);
    }
  }

  lemma JoinsThere(clients: seq<Client>, e: Event)
    requires Sorted(clients) && e.Join?
    ensures NewClient(e.who, e.name, e.icon) in AfterEvent(clients, e)
  {
    WithoutIs(clients, e.who);
    InsertedIs(Without(clients, e.who), NewClient(e.who, e.name, e.icon));
  }

  lemma LeavesThere(clients: seq<Client>, e: Event, c: Client)
    requires Sorted(clients) && e.Leave? && c in AfterEvent(clients, e)
    ensures c.id != e.who
  {
    WithoutIs(clients, e.who);
  }

  ghost predicate IsThere(clients: seq<Client>, id: u16) {
    exists c :: c in clients && c.id == id
  }

  /** There is a client of an ID exactly when the last to come or go under it came, and it has the name it came with. */
  lemma {:induction false} ThereAsJoined(events: seq<Event>, id: u16)
    ensures IsThere(After(events), id) <==> LastEntry(events, id).There?
    ensures forall c :: c in After(events) && c.id == id ==> LastEntry(events, id) == There(c.name, c.icon)
  {
    if events != [] {
      var n := |events| - 1;
      var before, e := After(events[..n]), events[n];
      ThereAsJoined(events[..n], id);
      AfterSorted(events[..n]);
      AfterEventIs(before, e);
      if e.Join? && e.who == id {
        JoinsThere(before, e);
      } else if e.Leave? && e.who == id {
        forall c | c in After(events)
          ensures c.id != id
        {
          LeavesThere(before, e, c);
        }
      } else {
        forall b | b in before && b.id == id
          ensures IsThere(After(events), id)
        {
          StaysThere(before, e, b);
        }
      }
    }
  }

  // ---------- What a notice says ----------

  /** The notice shows the client as it is. */
  predicate Says(m: Message, c: Client) {
    m.ChangeUser? && m.user == c.id && m.flags == c.flags && m.name == c.name && m.icon == c.icon
  }

  lemma {:induction false} BroadcastSays(to: seq<u16>, c: Client, m: Message)
    requires m in Broadcast(to, c)
    ensures Says(m, c)
  {
    var n := |to| - 1;
    if m in Broadcast(to[..n], c) {
      BroadcastSays(to[..n], c, m);
    }
  }

  lemma {:induction false} TickNoticeSays(to: seq<u16>, clients: seq<Client>, n: nat, m: Message)
    requires n <= |clients| && m in TickNotices(to, clients, n)
    ensures exists i :: 0 <= i < n && Says(m, Ticked(clients[i]))
  {
    if m in TickNotices(to, clients, n - 1) {
      TickNoticeSays(to, clients, n - 1, m);
    } else {
      BroadcastSays(to, Ticked(clients[n - 1]), m);
    }
  }

  lemma {:induction false} ReturnNoticeSays(to: seq<u16>, clients: seq<Client>, who: u16, m: Message)
    requires m in ReturnNotices(to, clients, who)
    ensures exists c :: c in clients && c.id == who && Says(m, Active(c))
  {
    if clients[0].id == who {
      BroadcastSays(to, Active(clients[0]), m);
    } else {
      ReturnNoticeSays(to, clients[1..], who, m);
    }
  }

  /** Every notice shows its user as it is once the event is over: with the new flags, not the old. */
  lemma NoticeIsCurrent(clients: seq<Client>, e: Event, m: Message)
    requires Sorted(clients) && m in Sent(clients, e) && m.ChangeUser?
    ensures exists c :: c in AfterEvent(clients, e) && Says(m, c)
  {
    var to := IDs(clients);
    match e
    case Tick =>
      TickNoticeSays(to, clients, |clients|, m);
      var i :| 0 <= i < |clients| && Says(m, Ticked(clients[i]));
      StaysThere(clients, e, clients[i]);
    case Request(who, answers) =>
      ReturnNoticeSays(to, clients, who, m);
      var c :| c in clients && c.id == who && Says(m, Active(c));
      StaysThere(clients, e, c);
    case _ =>
  }

  // ---------- What a client has been told ----------

  datatype Heard = Nothing | Flags(flags: bv16)

  /** The flags in the last of the messages that tell one client about another. */
  function LastHeard(ms: seq<Message>, to: u16, user: u16): Heard {
    if ms == [] then Nothing else
      var n := |ms| - 1;
      if ms[n].ChangeUser? && ms[n].to == to && ms[n].user == user then Flags(ms[n].flags)
      else LastHeard(ms[..n], to, user)
  }

  lemma {:induction false} HeardIsSent(ms: seq<Message>, to: u16, user: u16)
    ensures LastHeard(ms, to, user).Nothing? <==> Notices(ms, to, user) == 0
    ensures LastHeard(ms, to, user).Flags? ==>
            exists m :: m in ms && m.ChangeUser? && m.user == user && m.flags == LastHeard(ms, to, user).flags
  {
    if ms != [] {
      var n := |ms| - 1;
      HeardIsSent(ms[..n], to, user);
      assert ms[n] in ms;
    }
  }

  /**
   Whether a client was last told that another is away: by the newest notice about it, or, with none since the later of
   the two joined, by what that one was then; a client joins as not away.
   */
  predicate ToldAway(events: seq<Event>, to: u16, user: u16) {
    events != [] &&
    var n := |events| - 1;
    var before, e := After(events[..n]), events[n];
    var heard := LastHeard(Sent(before, e), to, user);
    if heard.Flags? then IsSet(heard.flags, USER_FLAG_AWAY)
    else if e.Join? && e.who == user then false
    else if e.Join? && e.who == to then OneAway(before, user)
    else ToldAway(events[..n], to, user)
  }

  lemma OneOfAnID(clients: seq<Client>, b: Client, c: Client)
    requires Sorted(clients) && b in clients && c in clients && b.id == c.id
    ensures b == c
  {
  }

  lemma OnlyAway(clients: seq<Client>, b: Client)
    requires Sorted(clients) && b in clients
    ensures OneAway(clients, b.id) <==> Away(b)
  {
    forall c | c in clients && c.id == b.id
      ensures c == b
    {
      OneOfAnID(clients, b, c);
    }
  }

  /** What an event leaves a client told about one that stays. */
  lemma StillTold(clients: seq<Client>, e: Event, to: u16, b: Client, c: Client)
    requires Sorted(clients) && Proper(e) && to in IDs(clients)
    requires b in clients && Stays(b, c, e) && c in AfterEvent(clients, e)
    ensures var heard := LastHeard(Sent(clients, e), to, c.id);
            if heard.Flags? then IsSet(heard.flags, USER_FLAG_AWAY) == Away(c) else Away(c) == Away(b)
  {
    var heard := LastHeard(Sent(clients, e), to, c.id);
    HeardIsSent(Sent(clients, e), to, c.id);
    AfterEventIs(clients, e);
    if heard.Flags? {
      var m :| m in Sent(clients, e) && m.ChangeUser? && m.user == c.id && m.flags == heard.flags;
      NoticeIsCurrent(clients, e, m);
      var d :| d in AfterEvent(clients, e) && Says(m, d);
      OneOfAnID(AfterEvent(clients, e), c, d);
    } else {
      SentOnce(clients, e, to, c.id);
      assert !Turned(b, e);
    }
  }

  lemma Listed(clients: seq<Client>, c: Client)
    requires c in clients
    ensures c.id in IDs(clients)
  {
    var i :| 0 <= i < |clients| && clients[i] == c;
    assert IDs(clients)[i] == c.id;
  }

  lemma AlreadyThere(clients: seq<Client>, e: Event, id: u16)
    requires Sorted(clients) && id in IDs(AfterEvent(clients, e)) && !(e.Join? && e.who == id)
    ensures id in IDs(clients)
  {
    AfterEventIs(clients, e);
    var i :| 0 <= i < |AfterEvent(clients, e)| && AfterEvent(clients, e)[i].id == id;
    var d := AfterEvent(clients, e)[i];
    assert d in AfterEvent(clients, e) && !Joins(d, e);
    var c :| c in clients && Stays(c, d, e);
    Listed(clients, c);
  }

  /** At every point of every run, what each client was last told of each other one's away flag is what that flag is. */
  lemma {:induction false} ToldTheTruth(events: seq<Event>, to: u16, c: Client)
    requires forall e :: e in events ==> Proper(e)
    requires to in IDs(After(events)) && c in After(events)
    ensures ToldAway(events, to, c.id) <==> Away(c)
  {
    var n := |events| - 1;
    var before, e := After(events[..n]), events[n];
    AfterSorted(events[..n]);
    AfterEventIs(before, e);
    if Joins(c, e) {
      NobodyAway(c);
    } else {
      var b :| b in before && Stays(b, c, e);
      if e.Join? && e.who == to {
        OnlyAway(before, b);
      } else {
        AlreadyThere(before, e, to);
        ToldTheTruth(events[..n], to, b);
        StillTold(before, e, to, b, c);
      }
    }
  }

  // ---------- The answers ----------

  /** The answers among the messages. */
  function AnswersIn(ms: seq<Message>): seq<bytes> {
    if ms == [] then [] else
      var n := |ms| - 1;
      AnswersIn(ms[..n]) + if ms[n].Answer? then [ms[n].data] else []
  }

  function AnswersOf(e: Event): seq<bytes> {
    if e.Request? || e.KeepAlive? then e.answers else []
  }

  function AllAnswers(events: seq<Event>): seq<bytes> {
    if events == [] then [] else AllAnswers(events[..|events| - 1]) + AnswersOf(events[|events| - 1])
  }

  lemma {:induction false} AnswersInBoth(a: seq<Message>, b: seq<Message>)
    ensures AnswersIn(a + b) == AnswersIn(a) + AnswersIn(b)
  {
    if b == [] {
      assert a + b == a;
    } else {
      var n := |b| - 1;
      assert (a + b)[..|a| + n] == a + b[..n];
      AnswersInBoth(a, b[..n]);
    }
  }

  lemma {:induction false} AnswersAreIn(answers: seq<bytes>)
    ensures AnswersIn(Answers(answers)) == answers
  {
    if answers != [] {
      var n := |answers| - 1;
      assert Answers(answers)[..n] == Answers(answers[..n]);
      AnswersAreIn(answers[..n]);
      assert answers == answers[..n] + [answers[n]];
    }
  }

  lemma {:induction false} NoAnswersIn(ms: seq<Message>)
    requires forall m :: m in ms ==> m.ChangeUser?
    ensures AnswersIn(ms) == []
  {
    if ms != [] {
      assert ms[|ms| - 1] in ms;
      NoAnswersIn(ms[..|ms| - 1]);
    }
  }

  lemma AnswersSent(clients: seq<Client>, e: Event)
    ensures AnswersIn(Sent(clients, e)) == AnswersOf(e)
  {
    var to := IDs(clients);
    match e
    case Tick =>
      forall m | m in Sent(clients, e)
        ensures m.ChangeUser?
      {
        TickNoticeSays(to, clients, |clients|, m);
      }
      NoAnswersIn(Sent(clients, e));
    case Request(who, answers) =>
      forall m | m in ReturnNotices(to, clients, who)
        ensures m.ChangeUser?
      {
        ReturnNoticeSays(to, clients, who, m);
      }
      NoAnswersIn(ReturnNotices(to, clients, who));
      AnswersInBoth(Answers(answers), ReturnNotices(to, clients, who));
      AnswersAreIn(answers);
    case KeepAlive(_, answers) =>
      AnswersAreIn(answers);
    case _ =>
  }

  /** Over any run the answers of all handlers go out, once each and in order. */
  lemma {:induction false} EveryAnswerSent(events: seq<Event>)
    ensures AnswersIn(Outbox(events)) == AllAnswers(events)
  {
    if events != [] {
      var n := |events| - 1;
      EveryAnswerSent(events[..n]);
      AnswersInBoth(Outbox(events[..n]), Sent(After(events[..n]), events[n]));
      AnswersSent(After(events[..n]), events[n]);
    }
  }
}
