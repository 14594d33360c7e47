/** The topic-serialised pool: one client with a lock for each topic, the topic map behind a
    reader-writer lock, and tasks that interleave at every lock operation. */
module TopicPool {
  import opened Wrappers
  import opened Counting
  import opened Sequences

  type Topic = string
  type Client = nat

  /** Named after the operation the task does next. A finished topic call remembers which client served it.
      A closing task holds the map's read lock from its first `Sweeping` to its last, and remembers the
      topics whose clients it has locked and closed (`swept`). */
  datatype Pc =
    | DefaultCall
    | WantMap(topic: Topic)
    | WantClient(topic: Topic, client: Client)
    | Calling(topic: Topic, client: Client)
    | Done(servedBy: Option<Client>)
    | CloseDefault
    | WantMapRead
    | Sweeping(left: seq<Topic>, swept: set<Topic>)
    | ClosingClient(left: seq<Topic>, swept: set<Topic>)
    | Closed(swept: set<Topic>)

  /** What each task was asked to do. */
  datatype Errand = ToCall(topic: Option<Topic>) | ToClose

  datatype Sys = Sys(clients: map<Topic, Client>, created: nat, pcs: seq<Pc>, errands: seq<Errand>)

  /** `order` is the order in which the map is iterated, where the step asks for one. */
  datatype Move = Call(topic: Option<Topic>) | Close | Advance(task: nat, order: seq<Topic>)

  const START := Sys(map[], 0, [], [])

  predicate ReadsMap(pc: Pc) {
    pc.Sweeping? || pc.ClosingClient?
  }

  predicate MapRead(s: Sys) {
    exists i :: 0 <= i < |s.pcs| && ReadsMap(s.pcs[i])
  }

  predicate Holds(s: Sys, pc: Pc, c: Client) {
    || (pc.Calling? && pc.client == c)
    || (pc.ClosingClient? && pc.left != [] && pc.left[0] in s.clients && s.clients[pc.left[0]] == c)
  }

  predicate Locked(s: Sys, c: Client) {
    exists i :: 0 <= i < |s.pcs| && Holds(s, s.pcs[i], c)
  }

  predicate IsOrder(clients: map<Topic, Client>, order: seq<Topic>) {
    && |order| == |clients|
    && (forall i :: 0 <= i < |order| ==> order[i] in clients)
    && (forall t <- clients :: t in order)
  }

  /** A call without a topic, or with an empty one, goes to the default pool. */
  function Entry(topic: Option<Topic>): Pc {
    if topic.Some? && topic.value != "" then WantMap(topic.value) else DefaultCall
  }

  /** The client a topic gets: its own, or a new one on first use. */
  function ClientOf(s: Sys, t: Topic): Client {
    if t in s.clients then s.clients[t] else s.created
  }

  function Next(s: Sys, pc: Pc, order: seq<Topic>): Option<Pc> {
    match pc
    case DefaultCall => Some(Done(None))
    case WantMap(t) => if MapRead(s) then None else Some(WantClient(t, ClientOf(s, t)))
    case WantClient(t, c) => if Locked(s, c) then None else Some(Calling(t, c))
    case Calling(_, c) => Some(Done(Some(c)))
    case CloseDefault => Some(WantMapRead)
    case WantMapRead => if IsOrder(s.clients, order) then Some(Sweeping(order, {})) else None
    case Sweeping(left, swept) =>
      if left == [] then Some(Closed(swept))
      else if left[0] in s.clients && Locked(s, s.clients[left[0]]) then None
      else Some(ClosingClient(left, swept))
    case ClosingClient(left, swept) =>
      Some(if left == [] then Sweeping([], swept) else Sweeping(left[1..], swept + {left[0]}))
    case Done(_) | Closed(_) => None
  }

  /** Only the step that asks for a topic's client changes the map. */
  function Touch(s: Sys, pc: Pc): Sys {
    if pc.WantMap? && pc.topic !in s.clients then
      s.(clients := s.clients[pc.topic := s.created], created := s.created + 1)
    else s
  }

  function Step(s: Sys, i: nat, order: seq<Topic>): Option<Sys>
    requires i < |s.pcs|
  {
    match Next(s, s.pcs[i], order)
    case None => None
    case Some(pc') => Some(Touch(s, s.pcs[i]).(pcs := s.pcs[i := pc']))
  }

  function Apply(s: Sys, m: Move): Option<Sys> {
    match m
    case Call(topic) => Some(s.(pcs := s.pcs + [Entry(topic)], errands := s.errands + [ToCall(topic)]))
    case Close => Some(s.(pcs := s.pcs + [CloseDefault], errands := s.errands + [ToClose]))
    case Advance(i, order) => if i < |s.pcs| then Step(s, i, order) else None
  }

  /** The state after a run from `s`. */
  function Play(s: Sys, ms: seq<Move>): Option<Sys>
    decreases |ms|
  {
    if ms == [] then Some(s)
    else
      match Play(s, Front(ms))
      case Some(t) => Apply(t, Last(ms))
      case None => None
  }

  // ---------- the invariant ----------

  predicate Bound(s: Sys, pc: Pc) {
    match pc
    case WantClient(t, c) => t in s.clients && s.clients[t] == c
    case Calling(t, c) => t in s.clients && s.clients[t] == c
    case Sweeping(left, swept) => IsLeft(s.clients, left, swept)
    case ClosingClient(left, swept) => left != [] && IsLeft(s.clients, left, swept)
    case _ => true
  }

  /** Every topic bound is either swept or still to be swept. */
  predicate IsLeft(clients: map<Topic, Client>, left: seq<Topic>, swept: set<Topic>) {
    && (forall i :: 0 <= i < |left| ==> left[i] in clients)
    && (forall t <- clients :: t in swept || t in left)
    && (forall t <- swept :: t in clients)
  }

  predicate IsEntering(pc: Pc) { pc.WantMap? }

  predicate OwnClients(s: Sys) {
    && (forall t <- s.clients :: s.clients[t] < s.created)
    && (forall t, u :: t in s.clients && u in s.clients && s.clients[t] == s.clients[u] ==> t == u)
  }

  predicate AllBound(s: Sys) {
    forall i :: 0 <= i < |s.pcs| ==> Bound(s, s.pcs[i])
  }

  ghost predicate OneHolder(s: Sys) {
    forall i, j, c :: 0 <= i < |s.pcs| && 0 <= j < |s.pcs| && Holds(s, s.pcs[i], c) && Holds(s, s.pcs[j], c) ==> i == j
  }

  /** The task does what it was asked: a call with a topic is on that topic, and when it is done was served by
      the topic's own client; a call without one, or with an empty one, has nothing to do with topics. */
  predicate OnErrand(clients: map<Topic, Client>, e: Errand, pc: Pc) {
    match pc
    case DefaultCall | Done(None) => e.ToCall? && (e.topic.None? || e.topic.value == "")
    case WantMap(t) => e == ToCall(Some(t)) && t != ""
    case WantClient(t, c) => e == ToCall(Some(t)) && t != "" && t in clients && clients[t] == c
    case Calling(t, c) => e == ToCall(Some(t)) && t != "" && t in clients && clients[t] == c
    case Done(Some(c)) =>
      e.ToCall? && e.topic.Some? && e.topic.value != "" && e.topic.value in clients && clients[e.topic.value] == c
    case _ => e.ToClose?
  }

  predicate Errands(s: Sys) {
    |s.errands| == |s.pcs| && forall i :: 0 <= i < |s.pcs| ==> OnErrand(s.clients, s.errands[i], s.pcs[i])
  }

  lemma OnErrandNext(s: Sys, e: Errand, pc: Pc, order: seq<Topic>)
    requires OnErrand(s.clients, e, pc) && Next(s, pc, order).Some?
    ensures OnErrand(Touch(s, pc).clients, e, Next(s, pc, order).value)
  {
    hide Locked, MapRead, IsOrder;
  }

  lemma OnErrandStays(clients: map<Topic, Client>, clients': map<Topic, Client>, e: Errand, pc: Pc)
    requires OnErrand(clients, e, pc)
    requires forall t <- clients :: t in clients' && clients'[t] == clients[t]
    ensures OnErrand(clients', e, pc)
  {
  }

  lemma ErrandsStep(s: Sys, i: nat, order: seq<Topic>)
    requires OwnClients(s) && Errands(s) && i < |s.pcs| && Step(s, i, order).Some?
    ensures Errands(Step(s, i, order).value)
  {
    TouchExtends(s, s.pcs[i]);
    OnErrandNext(s, s.errands[i], s.pcs[i], order);
    var s' := Step(s, i, order).value;
    hide Next, OnErrand;
    forall j | 0 <= j < |s'.pcs| ensures OnErrand(s'.clients, s'.errands[j], s'.pcs[j]) {
      if j != i {
        OnErrandStays(s.clients, s'.clients, s.errands[j], s.pcs[j]);
      }
    }
  }

  predicate FewClients(s: Sys) {
    |s.clients| + Count(s.pcs, IsEntering) <= |s.pcs|
  }

  ghost predicate Inv(s: Sys) {
    OwnClients(s) && AllBound(s) && OneHolder(s) && FewClients(s) && Errands(s)
  }

  lemma TouchExtends(s: Sys, pc: Pc)
    requires OwnClients(s)
    ensures var s' := Touch(s, pc);
            && OwnClients(s') && s'.pcs == s.pcs
            && (forall t <- s.clients :: t in s'.clients && s'.clients[t] == s.clients[t])
            && (pc.WantMap? ==> pc.topic in s'.clients && s'.clients[pc.topic] == ClientOf(s, pc.topic))
            && |s'.clients| <= |s.clients| + (if pc.WantMap? then 1 else 0)
  {
  }

  lemma BoundStays(s: Sys, s': Sys, pc: Pc)
    requires Bound(s, pc)
    requires forall t <- s.clients :: t in s'.clients && s'.clients[t] == s.clients[t]
    requires ReadsMap(pc) ==> s'.clients == s.clients
    ensures Bound(s', pc)
    ensures forall c :: Holds(s', pc, c) <==> Holds(s, pc, c)
  {
  }

  lemma AllBoundStep(s: Sys, i: nat, order: seq<Topic>)
    requires Inv(s) && i < |s.pcs| && Step(s, i, order).Some?
    ensures AllBound(Step(s, i, order).value)
  {
    var s' := Step(s, i, order).value;
    TouchExtends(s, s.pcs[i]);
    forall j | 0 <= j < |s'.pcs| ensures Bound(s', s'.pcs[j]) {
      BoundStays(s, s', s.pcs[j]);
    }
  }

  /** A step takes a client's lock only when it is free. */
  lemma TakesFreeLock(s: Sys, i: nat, order: seq<Topic>, c: Client)
    requires Inv(s) && i < |s.pcs| && Step(s, i, order).Some?
    requires Holds(Step(s, i, order).value, Step(s, i, order).value.pcs[i], c)
    ensures !Locked(s, c)
  {
    assert Bound(s, s.pcs[i]);
  }

  lemma OneHolderStep(s: Sys, i: nat, order: seq<Topic>)
    requires Inv(s) && i < |s.pcs| && Step(s, i, order).Some?
    ensures OneHolder(Step(s, i, order).value)
  {
    var s' := Step(s, i, order).value;
    TouchExtends(s, s.pcs[i]);
    forall j | 0 <= j < |s'.pcs| && j != i ensures forall c :: Holds(s', s'.pcs[j], c) <==> Holds(s, s.pcs[j], c) {
      BoundStays(s, s', s.pcs[j]);
    }
    forall c | Holds(s', s'.pcs[i], c) ensures !Locked(s, c) {
      TakesFreeLock(s, i, order, c);
    }
  }

  lemma OwnClientsStep(s: Sys, i: nat, order: seq<Topic>)
    requires OwnClients(s) && i < |s.pcs| && Step(s, i, order).Some?
    ensures OwnClients(Step(s, i, order).value)
  {
    TouchExtends(s, s.pcs[i]);
    hide Next;
  }

  lemma FewClientsStep(s: Sys, i: nat, order: seq<Topic>)
    requires OwnClients(s) && FewClients(s) && i < |s.pcs| && Step(s, i, order).Some?
    ensures FewClients(Step(s, i, order).value)
  {
    TouchExtends(s, s.pcs[i]);
    var pc' := Next(s, s.pcs[i], order).value;
    assert !pc'.WantMap?;
    hide Count, Next, Touch, OwnClients;
    CountUpdate(s.pcs, i, pc', IsEntering);
  }

  lemma InvStep(s: Sys, i: nat, order: seq<Topic>)
    requires Inv(s) && i < |s.pcs| && Step(s, i, order).Some?
    ensures Inv(Step(s, i, order).value)
  {
    AllBoundStep(s, i, order);
    OneHolderStep(s, i, order);
    ErrandsStep(s, i, order);
    OwnClientsStep(s, i, order);
    FewClientsStep(s, i, order);
    hide OwnClients, AllBound, OneHolder, Errands, FewClients, Step;
  }

  lemma InvPush(s: Sys, pc: Pc, e: Errand)
    requires Inv(s) && (pc.DefaultCall? || pc.WantMap? || pc.CloseDefault?) && OnErrand(s.clients, e, pc)
    ensures Inv(s.(pcs := s.pcs + [pc], errands := s.errands + [e]))
  {
    var s' := s.(pcs := s.pcs + [pc], errands := s.errands + [e]);
    CountPush(s.pcs, pc, IsEntering);
    hide OnErrand, Count;
    forall j | 0 <= j < |s'.pcs| ensures Bound(s', s'.pcs[j]) {
      if j < |s.pcs| {
        BoundStays(s, s', s.pcs[j]);
      }
    }
    forall j | 0 <= j < |s.pcs| ensures forall c :: Holds(s', s'.pcs[j], c) <==> Holds(s, s.pcs[j], c) {
      BoundStays(s, s', s.pcs[j]);
    }
  }

  lemma {:induction false} RunInv(s: Sys, ms: seq<Move>)
    requires Inv(s) && Play(s, ms).Some?
    ensures var s' := Play(s, ms).value;
            && Inv(s')
            && (forall t <- s.clients :: t in s'.clients && s'.clients[t] == s.clients[t])
    decreases |ms|
  {
    if ms != [] {
      RunInv(s, Front(ms));
      var u := Play(s, Front(ms)).value;
      match Last(ms)
      case Call(topic) => InvPush(u, Entry(topic), ToCall(topic));
      case Close => InvPush(u, CloseDefault, ToClose);
      case Advance(i, order) =>
        InvStep(u, i, order);
        TouchExtends(u, u.pcs[i]);
    }
  }

  // ---------- the laws ----------

  /** Once a topic has a client it keeps it for the rest of the run, and no other topic shares it. */
  lemma TopicKeepsClient(ms: seq<Move>, more: seq<Move>, t: Topic)
    requires Play(START, ms).Some? && Play(Play(START, ms).value, more).Some?
    requires t in Play(START, ms).value.clients
    ensures var s, s' := Play(START, ms).value, Play(Play(START, ms).value, more).value;
            && t in s'.clients && s'.clients[t] == s.clients[t]
            && forall u <- s'.clients :: s'.clients[u] == s'.clients[t] ==> u == t
  {
    RunInv(START, ms);
    RunInv(Play(START, ms).value, more);
  }

  /** At most one call of a topic is in flight, always on the topic's own client. */
  lemma TopicSerialised(ms: seq<Move>, i: nat, j: nat)
    requires Play(START, ms).Some?
    requires i < |Play(START, ms).value.pcs| && j < |Play(START, ms).value.pcs|
    requires Play(START, ms).value.pcs[i].Calling? && Play(START, ms).value.pcs[j].Calling?
    ensures var s := Play(START, ms).value;
            && s.pcs[i].topic in s.clients && s.pcs[i].client == s.clients[s.pcs[i].topic]
            && (s.pcs[i].topic == s.pcs[j].topic <==> i == j)
  {
    RunInv(START, ms);
    var s := Play(START, ms).value;
    assert Bound(s, s.pcs[i]) && Bound(s, s.pcs[j]);
    assert Holds(s, s.pcs[i], s.pcs[i].client) && Holds(s, s.pcs[j], s.pcs[j].client);
  }

  /** Every call does its errand: it is on the topic it was made for, and once finished has been served by that
      topic's own client; a call without a topic, or with an empty one, goes past the topics. */
  lemma CallsServedByTopic(ms: seq<Move>, i: nat)
    requires Play(START, ms).Some? && i < |Play(START, ms).value.pcs|
    ensures var s := Play(START, ms).value;
            && |s.errands| == |s.pcs|
            && OnErrand(s.clients, s.errands[i], s.pcs[i])
            && "" !in s.clients
  {
    RunInv(START, ms);
    EmptyNeverBound(ms);
  }

  lemma {:induction false} EmptyNeverBound(ms: seq<Move>)
    requires Play(START, ms).Some?
    ensures "" !in Play(START, ms).value.clients
    decreases |ms|
  {
    if ms != [] {
      EmptyNeverBound(Front(ms));
      RunInv(START, Front(ms));
      var s := Play(START, Front(ms)).value;
      match Last(ms)
      case Advance(i, _) => assert OnErrand(s.clients, s.errands[i], s.pcs[i]);
      case _ =>
    }
  }

  /** A close has locked and closed the client of every topic bound when its sweep began: topics are bound
      only while nobody sweeps, and each step of the sweep takes in one that is left. */
  lemma CloseVisitsEveryTopic(ms: seq<Move>, i: nat, order: seq<Topic>)
    requires Play(START, ms).Some? && i < |Play(START, ms).value.pcs|
    requires ReadsMap(Play(START, ms).value.pcs[i])
    requires Step(Play(START, ms).value, i, order).Some?
    ensures var s := Play(START, ms).value;
            var pc, pc' := s.pcs[i], Step(s, i, order).value.pcs[i];
            && IsLeft(s.clients, pc.left, pc.swept)
            && (pc'.Closed? ==> pc'.swept == s.clients.Keys)
            && (pc.ClosingClient? ==>
                  && pc.left != [] && pc.left[0] in s.clients && Holds(s, pc, s.clients[pc.left[0]])
                  && pc' == Sweeping(pc.left[1..], pc.swept + {pc.left[0]}))
            && (pc.Sweeping? && !pc'.Closed? ==> pc' == ClosingClient(pc.left, pc.swept) && pc.left != [])
            && forall j, order' :: 0 <= j < |s.pcs| && Step(s, j, order').Some? ==>
                 Step(s, j, order').value.clients == s.clients
  {
    RunInv(START, ms);
    var s := Play(START, ms).value;
    assert Bound(s, s.pcs[i]);
    assert MapRead(s);
    hide OwnClients, AllBound, OneHolder, FewClients, Errands, IsOrder, Locked, Play;
  }

  /** A call on a topic that has not returned yet. */
  predicate IsTopicCall(pc: Pc) {
    pc.WantMap? || pc.WantClient? || pc.Calling?
  }

  predicate Blocked(s: Sys, i: nat, order: seq<Topic>)
    requires i < |s.pcs|
  {
    Step(s, i, order).None?
  }

  /** Where a topic call can be held up, and by whom: at its client by the one task that holds that
      client's lock (a call of the same topic, or a close on its way past it), and at the map by a close
      that is sweeping it. */
  lemma BlockedIff(ms: seq<Move>, i: nat, order: seq<Topic>)
    requires Play(START, ms).Some? && i < |Play(START, ms).value.pcs|
    requires IsTopicCall(Play(START, ms).value.pcs[i])
    ensures var s := Play(START, ms).value;
            && (Blocked(s, i, order) <==>
                  || (s.pcs[i].WantClient? && Locked(s, s.pcs[i].client))
                  || (s.pcs[i].WantMap? && MapRead(s)))
            && (s.pcs[i].WantClient? ==>
                  forall j :: 0 <= j < |s.pcs| && s.pcs[j].Calling? && Holds(s, s.pcs[j], s.pcs[i].client) ==>
                    s.pcs[j].topic == s.pcs[i].topic)
  {
    RunInv(START, ms);
    var s := Play(START, ms).value;
    assert Bound(s, s.pcs[i]);
    forall j | 0 <= j < |s.pcs| && s.pcs[i].WantClient? && s.pcs[j].Calling? && Holds(s, s.pcs[j], s.pcs[i].client)
      ensures s.pcs[j].topic == s.pcs[i].topic
    {
      assert Bound(s, s.pcs[j]);
    }
  }

  predicate IsCloser(pc: Pc) {
    pc.CloseDefault? || pc.WantMapRead? || pc.Sweeping? || pc.ClosingClient? || pc.Closed?
  }

  /** The closes started in a run. */
  function Closes(ms: seq<Move>): nat {
    if ms == [] then 0 else Closes(Front(ms)) + if Last(ms).Close? then 1 else 0
  }

  lemma {:induction false} NobodyCloses(ms: seq<Move>)
    requires Play(START, ms).Some? && Closes(ms) == 0
    ensures var s := Play(START, ms).value;
            forall i :: 0 <= i < |s.pcs| ==> !IsCloser(s.pcs[i])
    decreases |ms|
  {
    if ms != [] {
      NobodyCloses(Front(ms));
      assert !Last(ms).Close?;
    }
  }

  /** A topic call is held up only while another call of its own topic is in flight. */
  predicate Independent(s: Sys) {
    forall i :: 0 <= i < |s.pcs| && IsTopicCall(s.pcs[i]) && Blocked(s, i, []) ==>
      exists j :: 0 <= j < |s.pcs| && j != i && s.pcs[j].Calling? && s.pcs[j].topic == s.pcs[i].topic
  }

  /** Without a close no call ever waits for the map, and topics are independent. */
  lemma NoCloseIndependent(ms: seq<Move>)
    requires Play(START, ms).Some? && Closes(ms) == 0
    ensures !MapRead(Play(START, ms).value)
    ensures Independent(Play(START, ms).value)
  {
    var s := Play(START, ms).value;
    NobodyCloses(ms);
    forall i | 0 <= i < |s.pcs| && IsTopicCall(s.pcs[i]) && Blocked(s, i, [])
      ensures exists j :: 0 <= j < |s.pcs| && j != i && s.pcs[j].Calling? && s.pcs[j].topic == s.pcs[i].topic
    {
      BlockedIff(ms, i, []);
      var j :| 0 <= j < |s.pcs| && Holds(s, s.pcs[j], s.pcs[i].client);
      assert !IsCloser(s.pcs[j]);
    }
  }

  lemma Go(s: Sys, ms: seq<Move>, m: Move) returns (s': Sys, ms': seq<Move>)
    requires Play(START, ms) == Some(s) && Apply(s, m).Some?
    ensures ms' == ms + [m] && Play(START, ms') == Some(s') && Some(s') == Apply(s, m)
    ensures Closes(ms') == Closes(ms) + if m.Close? then 1 else 0
  {
    ms' := ms + [m];
    assert Front(ms') == ms && Last(ms') == m;
    s' := Apply(s, m).value;
  }

  lemma FirstTopicCalling() returns (s: Sys, ms: seq<Move>)
    ensures Play(START, ms) == Some(s) && Closes(ms) == 0
    ensures s == Sys(map["a" := 0], 1, [Calling("a", 0)], [ToCall(Some("a"))])
  {
    s, ms := Go(START, [], Call(Some("a")));
    assert s.pcs == [WantMap("a")];
    s, ms := Go(s, ms, Advance(0, []));
    assert s.pcs == [WantClient("a", 0)];
    s, ms := Go(s, ms, Advance(0, []));
  }

  lemma CloseSweeping() returns (s: Sys, ms: seq<Move>)
    ensures Play(START, ms) == Some(s) && Closes(ms) == 1
    ensures s == Sys(map["a" := 0], 1, [Calling("a", 0), Sweeping(["a"], {})], [ToCall(Some("a")), ToClose])
  {
    s, ms := FirstTopicCalling();
    hide Play, Closes;
    s, ms := Go(s, ms, Close);
    s, ms := Go(s, ms, Advance(1, []));
    assert s.pcs == [Calling("a", 0), WantMapRead];
    assert IsOrder(s.clients, ["a"]);
    s, ms := Go(s, ms, Advance(1, ["a"]));
  }

  lemma Stalled(s: Sys)
    requires s.clients == map["a" := 0] && s.pcs == [Calling("a", 0), Sweeping(["a"], {}), WantMap("b")]
    ensures forall order :: Blocked(s, 1, order) && Blocked(s, 2, order)
    ensures !Independent(s)
  {
    assert Holds(s, s.pcs[0], 0) && ReadsMap(s.pcs[1]);
    assert Blocked(s, 2, []) && IsTopicCall(s.pcs[2]);
    hide Step;
  }

  /** A call of topic "a" in flight holds up a close, and the close, holding the map, holds up a call
      of topic "b", whatever order the map is iterated in. */
  lemma CloseStallsOtherTopics() returns (s: Sys, ms: seq<Move>)
    ensures Play(START, ms) == Some(s) && Closes(ms) == 1
    ensures s.pcs == [Calling("a", 0), Sweeping(["a"], {}), WantMap("b")]
    ensures forall order :: Blocked(s, 1, order) && Blocked(s, 2, order)
    ensures !Independent(s)
  {
    s, ms := CloseSweeping();
    hide Play, Closes;
    s, ms := Go(s, ms, Call(Some("b")));
    Stalled(s);
  }

  /** Calls of one topic never delay those of another, in every run with at most `closes` closes,
      exactly when there are none. */
  lemma TopicsIndependentIffNoClose(closes: nat)
    ensures (forall ms :: Play(START, ms).Some? && Closes(ms) <= closes ==> Independent(Play(START, ms).value))
            <==> closes == 0
  {
    if closes == 0 {
      forall ms | Play(START, ms).Some? && Closes(ms) <= closes ensures Independent(Play(START, ms).value) {
        NoCloseIndependent(ms);
      }
    } else {
      var s, ms := CloseStallsOtherTopics();
      assert Closes(ms) <= closes && !Independent(Play(START, ms).value);
    }
  }

  predicate Finished(pc: Pc) {
    pc.Done? || pc.Closed?
  }

  lemma {:induction false} Enumerate(topics: set<Topic>) returns (order: seq<Topic>)
    ensures |order| == |topics| && forall t :: t in order <==> t in topics
  {
    if topics == {} {
      order := [];
    } else {
      var t :| t in topics;
      var rest := Enumerate(topics - {t});
      order := [t] + rest;
    }
  }

  lemma MapOrder(clients: map<Topic, Client>) returns (order: seq<Topic>)
    ensures IsOrder(clients, order)
  {
    order := Enumerate(clients.Keys);
    assert |clients.Keys| == |clients|;
    forall i | 0 <= i < |order| ensures order[i] in clients {
      assert order[i] in order;
    }
  }

  /** Topic calls and `close` cannot deadlock: as long as a task is unfinished, some task can move. */
  lemma NoDeadlock(ms: seq<Move>, i: nat) returns (j: nat, order: seq<Topic>)
    requires Play(START, ms).Some? && i < |Play(START, ms).value.pcs|
    requires !Finished(Play(START, ms).value.pcs[i])
    ensures j < |Play(START, ms).value.pcs| && Step(Play(START, ms).value, j, order).Some?
  {
    var s := Play(START, ms).value;
    order := MapOrder(s.clients);
    if holder: nat :| holder < |s.pcs| && (s.pcs[holder].Calling? || s.pcs[holder].ClosingClient?) {
      j := holder;
    } else if reader: nat :| reader < |s.pcs| && s.pcs[reader].Sweeping? {
      j := reader;
    } else {
      j := i;
    }
  }

  // ---------- progress ----------

  /** Steps a task can still take when at most `n` topics are bound. */
  function Rank(n: nat, pc: Pc): nat {
    match pc
    case DefaultCall => 1
    case WantMap(_) => 3
    case WantClient(_, _) => 2
    case Calling(_, _) => 1
    case CloseDefault => 2 * n + 3
    case WantMapRead => 2 * n + 2
    case Sweeping(left, _) => 2 * |left| + 1
    case ClosingClient(left, _) => 2 * |left|
    case Done(_) | Closed(_) => 0
  }

  function Work(n: nat, pcs: seq<Pc>): nat {
    if pcs == [] then 0 else Rank(n, pcs[0]) + Work(n, pcs[1..])
  }

  lemma {:induction false} WorkUpdate(n: nat, pcs: seq<Pc>, i: nat, pc: Pc)
    requires i < |pcs|
    ensures Work(n, pcs[i := pc]) == Work(n, pcs) - Rank(n, pcs[i]) + Rank(n, pc)
  {
    if i == 0 {
      assert pcs[i := pc][1..] == pcs[1..];
    } else {
      assert pcs[i := pc][1..] == pcs[1..][i - 1 := pc];
      WorkUpdate(n, pcs[1..], i - 1, pc);
    }
  }

  lemma RankDrops(s: Sys, i: nat, order: seq<Topic>)
    requires Inv(s) && i < |s.pcs| && Step(s, i, order).Some?
    ensures Rank(|s.pcs|, Next(s, s.pcs[i], order).value) < Rank(|s.pcs|, s.pcs[i])
  {
    hide Locked, MapRead, Count, OneHolder, OwnClients;
    assert Bound(s, s.pcs[i]);
  }

  lemma StepIsProgress(s: Sys, i: nat, order: seq<Topic>)
    requires Inv(s) && i < |s.pcs| && Step(s, i, order).Some?
    ensures var s' := Step(s, i, order).value;
            |s'.pcs| == |s.pcs| && Work(|s.pcs|, s'.pcs) < Work(|s.pcs|, s.pcs)
  {
    RankDrops(s, i, order);
    hide Inv, Next, Rank, Work;
    WorkUpdate(|s.pcs|, s.pcs, i, Next(s, s.pcs[i], order).value);
  }

  predicate NoArrivals(ms: seq<Move>) {
    forall i :: 0 <= i < |ms| ==> ms[i].Advance?
  }

  /** Nor can they run forever: without new arrivals every run is at most as long as the work left, so
      (there being no deadlock) every call and every `close` finishes. */
  lemma {:induction false} RunsEnd(before: seq<Move>, ms: seq<Move>)
    requires Play(START, before).Some? && NoArrivals(ms)
    requires Play(Play(START, before).value, ms).Some?
    ensures var s, s' := Play(START, before).value, Play(Play(START, before).value, ms).value;
            |s'.pcs| == |s.pcs| && |ms| + Work(|s.pcs|, s'.pcs) <= Work(|s.pcs|, s.pcs)
    decreases |ms|
  {
    if ms != [] {
      var s := Play(START, before).value;
      RunsEnd(before, Front(ms));
      RunInv(START, before);
      RunInv(s, Front(ms));
      assert Last(ms).Advance?;
      StepIsProgress(Play(s, Front(ms)).value, Last(ms).task, Last(ms).order);
    }
  }
}
