/** The thread controller: threads take turns, fork, send mail to each other and end. */
module Threads {
  import opened Lists
  import opened Queues
  import opened Wrappers

  type Id = int

  /** What a message says: something a thread sent, or how a thread came to its end. */
  datatype Word<M> =
    Note(msg: M) | Finished(info: M) | Crashed(info: M) | Erred(info: M) | OutOfMemory(info: M) | KilledBy(killer: Id)

  datatype Envelope<M> = Envelope(from: Id, word: Word<M>)

  /** What a system call answers. */
  datatype Answer<M> =
    | Mail(env: Envelope<M>)
    | NoMail
    | Delivered
    | Forked(id: Id)
    | Alone(yes: bool)
    | Running(ids: seq<Id>)
    | Killing(target: Id)
    | Done

  /** What a thread is to do next: S stands for suspended computations, parallel ones too, and continuations. */
  datatype Exec<S, M> = Start(thunk: S) | Suspended(state: S) | Resume(cont: S, val: Answer<M>)

  datatype Thread<S, M> = Thread(id: Id, exec: Exec<S, M>)

  /** An entry for a thread in the state of the controller: its inbox, or the continuation that
      waits for mail. */
  datatype Box<S, M> = Inbox(q: Queue<Envelope<M>>) | Waiting(cont: S)

  datatype ForkOption = Link | Mailbox | Other

  /** Why a thread stopped running, that is, the system call it made. */
  datatype Call<S, M> =
    | Slice(next: S)                                                // 1, and a step of a parallel computation
    | Finish(info: M)                                               // 2
    | Crash(info: M)                                                // 3
    | Fork(cont: S, id: Id, opts: seq<ForkOption>, thunk: S)        // 4
    | Error(info: M)                                                // 5
    | ReturnMails(cont: S, mails: seq<Envelope<M>>)                 // 6
    | AmIAlone(cont: S)                                             // 7
    | RunningIds(cont: S)                                           // 8
    | Send(cont: S, to: Id, msg: M)                                 // 9
    | SetSignal(cont: S)                                            // 12
    | Receive(cont: S, nonblock: bool)                              // 13
    | MemoryLimit(info: M)                                          // 14
    | Kill(cont: S, target: Id)                                     // 15
    | WrapWorld(cont: S)                                            // 16
    | AllIds(cont: S)                                               // 18
    | SetReturn(cont: S)                                            // 19
    | Parallel(state: S)                                            // 22

  datatype Sys<S, M> = Sys(
    todo: seq<Thread<S, M>>,
    done: seq<Thread<S, M>>,
    boxes: map<Id, Box<S, M>>,
    links: map<Id, seq<Id>>)

  /** deliver-mail: into the inbox, to whoever waits, or nowhere. */
  function Deliver<S, M>(boxes: map<Id, Box<S, M>>, to: Id,
          env: Envelope<M>): (map<Id, Box<S, M>>, Option<Thread<S, M>>) {
    if to !in boxes then (boxes, None)
    else match boxes[to]
      case Inbox(q) => (boxes[to := Inbox(Snoc(env, q))], None)
      case Waiting(cont) => (boxes[to := Inbox(Empty())], Some(Thread(to, Resume(cont, Mail(env)))))
  }

  /** deliver-messages: the same to several, the woken threads on top of the others. */
  function DeliverAll<S, M>(todo: seq<Thread<S, M>>, boxes: map<Id, Box<S, M>>, subs: seq<Id>,
          env: Envelope<M>): (seq<Thread<S, M>>, map<Id, Box<S, M>>)
    decreases |subs|
  {
    if subs == [] then (todo, boxes)
    else
      var (boxes', waked) := Deliver(boxes, subs[0], env);
      DeliverAll(if waked.Some? then [waked.value] + todo else todo, boxes', subs[1..], env)
  }

  function SubscribersOf<S, M>(s: Sys<S, M>, id: Id): seq<Id> {
    if id in s.links then s.links[id] else []
  }

  /** drop-delivering: forgets the thread and tells those who subscribed to it. */
  function DropDelivering<S, M>(s: Sys<S, M>, id: Id, env: Envelope<M>): Sys<S, M> {
    var subs := SubscribersOf(s, id);
    if subs == [] then s.(boxes := s.boxes - {id})
    else
      var (todo, boxes) := DeliverAll(s.todo, s.boxes - {id}, subs, env);
      Sys(todo, s.done, boxes, s.links - {id})
  }

  function DropFromList<S, M>(l: seq<Thread<S, M>>, id: Id): seq<Thread<S, M>> {
    if l == [] then l else if l[0].id == id then l[1..] else [l[0]] + DropFromList(l[1..], id)
  }

  function Ids<S, M>(l: seq<Thread<S, M>>): seq<Id> {
    if l == [] then [] else [l[0].id] + Ids(l[1..])
  }

  function GrabIds<S, M>(l: seq<Thread<S, M>>, n: seq<Id>): seq<Id> {
    if l == [] then n else GrabIds(l[1..], [l[0].id] + n)
  }

  function ForkOne<S, M>(s: Sys<S, M>, id: Id, child: Id, opt: ForkOption): Sys<S, M> {
    match opt
    case Link => s.(links := s.links[child := [id]])
    case Mailbox => s.(boxes := s.boxes[child := Inbox(Empty())])
    case Other => s
  }

  function ForkAll<S, M>(s: Sys<S, M>, id: Id, child: Id, opts: seq<ForkOption>): Sys<S, M>
    decreases |opts|
  {
    if opts == [] then s else ForkAll(ForkOne(s, id, child, opts[0]), id, child, opts[1..])
  }

  /** foldr of qsnoc. */
  function SnocAll<T>(q: Queue<T>, mails: seq<T>): Queue<T> {
    if mails == [] then q else Snoc(mails[0], SnocAll(q, mails[1..]))
  }

  function Answering<S, M>(s: Sys<S, M>, id: Id, cont: S, val: Answer<M>): Sys<S, M> {
    s.(todo := [Thread(id, Resume(cont, val))] + s.todo)
  }

  function WithChild<S, M>(s: Sys<S, M>, id: Id, cont: S, child: Id, thunk: S): Sys<S, M> {
    s.(todo := [Thread(child, Start(thunk)), Thread(id, Resume(cont, Forked(child)))] + s.todo)
  }

  /** What the controller does when thread id, no longer among the others, has made a call. */
  function Handle<S, M>(s: Sys<S, M>, id: Id, call: Call<S, M>): Sys<S, M> {
    match call
    case Slice(next) => s.(done := [Thread(id, Suspended(next))] + s.done)
    case Finish(info) => DropDelivering(s, id, Envelope(id, Finished(info)))
    case Crash(info) => DropDelivering(s, id, Envelope(id, Crashed(info)))
    case Error(info) => DropDelivering(s, id, Envelope(id, Erred(info)))
    case MemoryLimit(info) => DropDelivering(s, id, Envelope(id, OutOfMemory(info)))
    case Fork(cont, child, opts, thunk) =>
      ForkAll(WithChild(s, id, cont, child, thunk), id, child, opts)
    case ReturnMails(cont, mails) =>
      var box := if id in s.boxes then s.boxes[id] else Inbox(Empty());
      if box.Inbox? then Answering(s, id, cont, Answer.Done).(boxes := s.boxes[id := Inbox(SnocAll(box.q, mails))])
      else s
    case AmIAlone(cont) => Answering(s, id, cont, Alone(s.todo == [] && s.done == []))
    case RunningIds(cont) => Answering(s, id, cont, Running(Ids(s.todo) + Ids(s.done)))
    case Send(cont, to, msg) =>
      var (boxes, waked) := Deliver(s.boxes, to, Envelope(id, Note(msg)));
      var me := Thread(id, Resume(cont, Delivered));
      s.(todo := (if waked.Some? then [me, waked.value] else [me]) + s.todo, boxes := boxes)
    case SetSignal(cont) => Answering(s, id, cont, Answer.Done)
    case Receive(cont, nonblock) =>
      var box := if id in s.boxes then s.boxes[id] else Inbox(Empty());
      var first := if box.Inbox? then Uncons(box.q) else None;
      if first.Some? then
        Answering(s, id, cont, Mail(first.value.0)).(boxes := s.boxes[id := Inbox(first.value.1)])
      else if nonblock then Answering(s, id, cont, NoMail)
      else s.(boxes := s.boxes[id := Waiting(cont)])
    case Kill(cont, target) =>
      var s' := Answering(s, id, cont, Killing(target));
      DropDelivering(s'.(todo := DropFromList(s'.todo, target), done := DropFromList(s'.done, target)),
                     target, Envelope(target, KilledBy(id)))
    case WrapWorld(cont) => Answering(s, id, cont, Answer.Done)
    case AllIds(cont) => Answering(s, id, cont, Running([id] + GrabIds(s.done, GrabIds(s.todo, []))))
    case SetReturn(cont) => Answering(s, id, cont, Answer.Done)
    case Parallel(state) => s.(todo := [Thread(id, Suspended(state))] + s.todo)
  }

  /** A new round begins when everybody has had a turn. */
  function Turn<S, M>(s: Sys<S, M>): Sys<S, M> {
    if s.todo == [] then s.(todo := s.done, done := []) else s
  }

  predicate Halted<S, M>(s: Sys<S, M>) {
    s.todo == [] && s.done == []
  }

  /** The thread whose turn it is, and the others. */
  function Current<S, M>(s: Sys<S, M>): Thread<S, M>
    requires !Halted(s)
  {
    Turn(s).todo[0]
  }

  function Others<S, M>(s: Sys<S, M>): Sys<S, M>
    requires !Halted(s)
  {
    Turn(s).(todo := Turn(s).todo[1..])
  }

  /** One step of the controller: the thread whose turn it is runs until it makes the call. */
  function Step<S, M>(s: Sys<S, M>, call: Call<S, M>): Sys<S, M>
    requires !Halted(s)
  {
    Handle(Others(s), Current(s).id, call)
  }

  // ---- Every thread is in one place ----

  /** The thread that a call ends, and what its subscribers are told. */
  function Ended<S, M>(id: Id, call: Call<S, M>): Option<(Id, Envelope<M>)> {
    match call
    case Finish(info) => Some((id, Envelope(id, Finished(info))))
    case Crash(info) => Some((id, Envelope(id, Crashed(info))))
    case Error(info) => Some((id, Envelope(id, Erred(info))))
    case MemoryLimit(info) => Some((id, Envelope(id, OutOfMemory(info))))
    case Kill(_, target) => Some((target, Envelope(target, KilledBy(id))))
    case _ => None
  }

  predicate Ends<S, M>(id: Id, call: Call<S, M>, x: Id) {
    Ended(id, call).Some? && Ended(id, call).value.0 == x
  }

  function Times<S, M>(l: seq<Thread<S, M>>, x: Id): nat {
    if l == [] then 0 else (if l[0].id == x then 1 else 0) + Times(l[1..], x)
  }

  function Blocked<S, M>(boxes: map<Id, Box<S, M>>, x: Id): nat {
    if x in boxes && boxes[x].Waiting? then 1 else 0
  }

  /** In how many places the thread x is: about to run, having run, or blocked in receive. */
  function Places<S, M>(s: Sys<S, M>, x: Id): nat {
    Times(s.todo, x) + Times(s.done, x) + Blocked(s.boxes, x)
  }

  ghost predicate Unique<S, M>(s: Sys<S, M>) {
    forall x :: Places(s, x) <= 1
  }

  /** A fork uses a name that nothing knows yet. */
  predicate Fresh<S, M>(s: Sys<S, M>, id: Id, call: Call<S, M>) {
    call.Fork? ==> call.id != id && Places(s, call.id) == 0 && call.id !in s.boxes && call.id !in s.links
  }

  lemma {:induction false} DeliverAllPlaces<S, M>(todo: seq<Thread<S, M>>, boxes: map<Id, Box<S, M>>, subs: seq<Id>,
          env: Envelope<M>, x: Id)
    ensures var (todo', boxes') := DeliverAll(todo, boxes, subs, env);
            && Times(todo', x) + Blocked(boxes', x) == Times(todo, x) + Blocked(boxes, x)
            && boxes'.Keys == boxes.Keys
    decreases |subs|
  {
    if subs != [] {
      var (boxes', waked) := Deliver(boxes, subs[0], env);
      DeliverAllPlaces(if waked.Some? then [waked.value] + todo else todo, boxes', subs[1..], env, x);
    }
  }

  lemma DropPlaces<S, M>(s: Sys<S, M>, id: Id, env: Envelope<M>, x: Id)
    ensures var s' := DropDelivering(s, id, env);
            && Places(s', x) == Times(s.todo, x) + Times(s.done, x) + (if x == id then 0 else Blocked(s.boxes, x))
            && s'.boxes.Keys == s.boxes.Keys - {id} && SubscribersOf(s', id) == []
            && s'.links.Keys <= s.links.Keys && (forall k :: k in s'.links ==> s'.links[k] == s.links[k])
  {
    DeliverAllPlaces(s.todo, s.boxes - {id}, SubscribersOf(s, id), env, x);
  }

  lemma {:induction false} DropFromListTimes<S, M>(l: seq<Thread<S, M>>, id: Id, x: Id)
    ensures Times(DropFromList(l, id), x) == Times(l, x) - if x == id && Times(l, id) > 0 then 1 else 0
  {
    if l != [] && l[0].id != id {
      DropFromListTimes(l[1..], id, x);
    }
  }

  lemma {:induction false} ForkAllPlaces<S, M>(s: Sys<S, M>, id: Id, child: Id, opts: seq<ForkOption>)
    requires child !in s.boxes || s.boxes[child].Inbox?
    ensures var s' := ForkAll(s, id, child, opts);
            && s'.todo == s.todo && s'.done == s.done
            && (forall x :: x != child ==>
                  (x in s'.boxes <==> x in s.boxes) && (x in s.boxes ==> s'.boxes[x] == s.boxes[x]))
            && (child in s'.boxes ==> s'.boxes[child].Inbox?)
            && (forall x :: x in s'.links && (x != child || x in s.links) ==>
                  x == child || (x in s.links && s'.links[x] == s.links[x]))
            && (child in s'.links ==>
                  s'.links[child] == [id] || (child in s.links && s'.links[child] == s.links[child]))
    decreases |opts|
  {
    if opts != [] {
      ForkAllPlaces(ForkOne(s, id, child, opts[0]), id, child, opts[1..]);
    }
  }

  lemma KillPlaces<S, M>(s: Sys<S, M>, id: Id, cont: S, target: Id, x: Id)
    requires Places(s, id) == 0
    ensures x != target ==> Places(Handle(s, id, Kill(cont, target)), x) == Places(s, x) + if x == id then 1 else 0
    ensures Places(s, target) <= 1 ==> Places(Handle(s, id, Kill(cont, target)), target) == 0
  {
    var s1 := Answering(s, id, cont, Killing(target));
    var s2 := s1.(todo := DropFromList(s1.todo, target), done := DropFromList(s1.done, target));
    DropFromListTimes(s1.todo, target, x);
    DropFromListTimes(s1.done, target, x);
    DropFromListTimes(s1.todo, target, target);
    DropFromListTimes(s1.done, target, target);
    DropPlaces(s2, target, Envelope(target, KilledBy(id)), x);
    DropPlaces(s2, target, Envelope(target, KilledBy(id)), target);
  }

  lemma TwoMore<S, M>(a: Thread<S, M>, b: Thread<S, M>, l: seq<Thread<S, M>>, x: Id)
    ensures Times([a, b] + l, x) == (if a.id == x then 1 else 0) + (if b.id == x then 1 else 0) + Times(l, x)
    ensures [a, b] + l == [a] + ([b] + l)
  {
    var both := [a, b] + l;
    assert both[1..] == [b] + l && ([b] + l)[1..] == l;
  }

  lemma SendPlaces<S, M>(s: Sys<S, M>, id: Id, cont: S, to: Id, msg: M, x: Id)
    ensures Places(Handle(s, id, Send(cont, to, msg)), x) == Places(s, x) + if x == id then 1 else 0
  {
    var (boxes, waked) := Deliver(s.boxes, to, Envelope(id, Note(msg)));
    var me := Thread(id, Resume(cont, Delivered));
    if waked.Some? {
      TwoMore(me, waked.value, s.todo, x);
    } else {
      assert ([me] + s.todo)[1..] == s.todo;
    }
  }

  /** A call puts the thread that made it in one place and adds nobody but a forked child; what it ends is nowhere,
      and everybody else is where there was somebody before. */
  lemma HandlePlaces<S, M>(s: Sys<S, M>, id: Id, call: Call<S, M>, x: Id)
    requires Unique(s) && Places(s, id) == 0 && Fresh(s, id, call)
    ensures Places(Handle(s, id, call), x)
         == if Ends(id, call, x) then 0
            else Places(s, x) + (if x == id then 1 else 0) + if call.Fork? && x == call.id then 1 else 0
  {
    assert Places(s, x) <= 1;
    match call
    case Finish(info) => DropPlaces(s, id, Envelope(id, Finished(info)), x);
    case Crash(info) => DropPlaces(s, id, Envelope(id, Crashed(info)), x);
    case Error(info) => DropPlaces(s, id, Envelope(id, Erred(info)), x);
    case MemoryLimit(info) => DropPlaces(s, id, Envelope(id, OutOfMemory(info)), x);
    case Fork(cont, child, opts, thunk) =>
      TwoMore(Thread(child, Start(thunk)), Thread(id, Resume(cont, Forked(child))), s.todo, x);
      ForkAllPlaces(WithChild(s, id, cont, child, thunk), id, child, opts);
    case Send(cont, to, msg) => SendPlaces(s, id, cont, to, msg, x);
    case Kill(cont, target) => KillPlaces(s, id, cont, target, x);
    case _ => QuietPlaces(s, id, call, x);
  }

  lemma QuietPlaces<S, M>(s: Sys<S, M>, id: Id, call: Call<S, M>, x: Id)
    requires Places(s, id) == 0 && Ended(id, call).None? && !call.Fork? && !call.Send?
    ensures Places(Handle(s, id, call), x) == Places(s, x) + if x == id then 1 else 0
  {
    if Handle(s, id, call).todo != s.todo {
      assert Handle(s, id, call).todo[1..] == s.todo;
    } else if call.Slice? {
      assert Handle(s, id, call).done[1..] == s.done;
    }
  }

  lemma OthersPlaces<S, M>(s: Sys<S, M>)
    requires !Halted(s) && Unique(s)
    ensures Unique(Others(s)) && Places(Others(s), Current(s).id) == 0
    ensures Others(s).boxes == s.boxes && Others(s).links == s.links
  {
    var t := Turn(s);
    assert forall x :: Places(t, x) == Places(s, x);
    forall x ensures Places(Others(s), x) <= 1 {
      assert Places(t, x) <= 1;
    }
    assert Places(t, t.todo[0].id) <= 1;
  }

  /** After one step what the call ends is nowhere, a forked child is in one place, and every other thread is where
      there was one before. */
  lemma StepPlaces<S, M>(s: Sys<S, M>, call: Call<S, M>, x: Id)
    requires !Halted(s) && Unique(s) && Fresh(Others(s), Current(s).id, call)
    ensures Places(Step(s, call), x)
         == if Ends(Current(s).id, call, x) then 0 else if call.Fork? && x == call.id then 1 else Places(s, x)
  {
    OthersPlaces(s);
    HandlePlaces(Others(s), Current(s).id, call, x);
    assert Places(Turn(s), x) == Places(s, x);
  }

  /** One step keeps every thread in one place at most. */
  lemma StepUnique<S, M>(s: Sys<S, M>, call: Call<S, M>)
    requires !Halted(s) && Unique(s) && Fresh(Others(s), Current(s).id, call)
    ensures Unique(Step(s, call))
  {
    OthersPlaces(s);
    forall x ensures Places(Step(s, call), x) <= 1 {
      HandlePlaces(Others(s), Current(s).id, call, x);
      assert Places(Others(s), x) <= 1;
    }
  }

  // ---- Mail ----

  predicate HasMail<S, M>(t: Thread<S, M>, x: Id) {
    t.id == x && t.exec.Resume? && t.exec.val.Mail?
  }

  /** The envelopes that thread x is about to be resumed with. */
  function MailFor<S, M>(l: seq<Thread<S, M>>, x: Id): seq<Envelope<M>> {
    if l == [] then []
    else (if HasMail(l[0], x) then [l[0].exec.val.env] else []) + MailFor(l[1..], x)
  }

  function Held<S, M>(boxes: map<Id, Box<S, M>>, x: Id): seq<Envelope<M>> {
    if x in boxes && boxes[x].Inbox? then Contents(boxes[x].q) else []
  }

  /** What has been sent to x and not yet reached it. */
  function Pending<S, M>(s: Sys<S, M>, x: Id): seq<Envelope<M>> {
    MailFor(s.todo, x) + MailFor(s.done, x) + Held(s.boxes, x)
  }

  /** One copy of the envelope for each time that x is on the list. */
  function Notices<M>(subs: seq<Id>, env: Envelope<M>, x: Id): seq<Envelope<M>> {
    if subs == [] then [] else (if subs[0] == x then [env] else []) + Notices(subs[1..], env, x)
  }

  /** What the call of thread id sends to x. */
  function Sent<S, M>(s: Sys<S, M>, id: Id, call: Call<S, M>, x: Id): seq<Envelope<M>> {
    match call
    case Send(_, to, msg) => if to == x then [Envelope(id, Note(msg))] else []
    case Finish(info) => Notices(SubscribersOf(s, id), Envelope(id, Finished(info)), x)
    case Crash(info) => Notices(SubscribersOf(s, id), Envelope(id, Crashed(info)), x)
    case Error(info) => Notices(SubscribersOf(s, id), Envelope(id, Erred(info)), x)
    case MemoryLimit(info) => Notices(SubscribersOf(s, id), Envelope(id, OutOfMemory(info)), x)
    case Kill(_, target) => Notices(SubscribersOf(s, target), Envelope(target, KilledBy(id)), x)
    case _ => []
  }

  /** What the call of thread id puts back into the mailbox of x: the mails are handed over newest first. */
  function Back<S, M>(id: Id, call: Call<S, M>, x: Id): seq<Envelope<M>> {
    if call.ReturnMails? && id == x then Reversed(call.mails) else []
  }

  lemma {:induction false} SnocAllAdds<T>(q: Queue<T>, mails: seq<T>)
    ensures Contents(SnocAll(q, mails)) == Contents(q) + Reversed(mails)
  {
    if mails != [] {
      SnocAllAdds(q, mails[1..]);
      SnocAdds(mails[0], SnocAll(q, mails[1..]));
    }
  }

  lemma {:induction false} NoMailElsewhere<S, M>(l: seq<Thread<S, M>>, x: Id)
    requires Times(l, x) == 0
    ensures MailFor(l, x) == []
  {
    if l != [] { NoMailElsewhere(l[1..], x); }
  }

  /** Delivering to an inbox queues, delivering to a blocked thread wakes it: either way the envelope
      comes after everything that is pending for x. */
  lemma DeliverPending<S, M>(todo: seq<Thread<S, M>>, done: seq<Thread<S, M>>, boxes: map<Id, Box<S, M>>, to: Id,
          env: Envelope<M>, x: Id)
    requires x in boxes && Times(todo, x) + Times(done, x) + Blocked(boxes, x) <= 1
    ensures var (boxes', waked) := Deliver(boxes, to, env);
            var todo' := if waked.Some? then [waked.value] + todo else todo;
            && x in boxes' && Times(todo', x) + Times(done, x) + Blocked(boxes', x) <= 1
            && MailFor(todo', x) + MailFor(done, x) + Held(boxes', x)
            == MailFor(todo, x) + MailFor(done, x) + Held(boxes, x) + if to == x then [env] else []
  {
    if to == x {
      match boxes[x]
      case Inbox(q) => SnocAdds(env, q);
      case Waiting(_) =>
        NoMailElsewhere(todo, x);
        NoMailElsewhere(done, x);
    }
  }

  lemma {:induction false} DeliverAllPending<S, M>(todo: seq<Thread<S, M>>, done: seq<Thread<S, M>>,
          boxes: map<Id, Box<S, M>>, subs: seq<Id>, env: Envelope<M>, x: Id)
    requires x in boxes && Times(todo, x) + Times(done, x) + Blocked(boxes, x) <= 1
    ensures var out := DeliverAll(todo, boxes, subs, env);
            && MailFor(out.0, x) + MailFor(done, x) + Held(out.1, x)
            == MailFor(todo, x) + MailFor(done, x) + Held(boxes, x) + Notices(subs, env, x)
    decreases |subs|
  {
    hide MailFor, Times, Held, Blocked, Deliver;
    if subs != [] {
      DeliverPending(todo, done, boxes, subs[0], env, x);
      var (boxes', waked) := Deliver(boxes, subs[0], env);
      DeliverAllPending(if waked.Some? then [waked.value] + todo else todo, done, boxes', subs[1..], env, x);
    }
  }

  lemma DropPending<S, M>(s: Sys<S, M>, id: Id, env: Envelope<M>, x: Id)
    requires x in s.boxes && x != id && Places(s, x) <= 1
    ensures Pending(DropDelivering(s, id, env), x) == Pending(s, x) + Notices(SubscribersOf(s, id), env, x)
  {
    DeliverAllPending(s.todo, s.done, s.boxes - {id}, SubscribersOf(s, id), env, x);
  }

  lemma {:induction false} DropFromListMail<S, M>(l: seq<Thread<S, M>>, id: Id, x: Id)
    requires x != id
    ensures MailFor(DropFromList(l, id), x) == MailFor(l, x)
  {
    if l != [] && l[0].id != id { DropFromListMail(l[1..], id, x); }
  }

  /** The first envelope in its inbox is given to the thread that receives. */
  lemma TakePending<S, M>(s: Sys<S, M>, id: Id, cont: S, env: Envelope<M>, rest: Queue<Envelope<M>>, x: Id)
    requires Places(s, id) == 0 && x in s.boxes && id in s.boxes && s.boxes[id].Inbox?
    requires Contents(s.boxes[id].q) == [env] + Contents(rest)
    ensures Pending(Answering(s, id, cont, Mail(env)).(boxes := s.boxes[id := Inbox(rest)]), x) == Pending(s, x)
  {
    var me := Thread(id, Resume(cont, Mail(env)));
    assert ([me] + s.todo)[1..] == s.todo;
    if x == id {
      NoMailElsewhere(s.todo, id);
      NoMailElsewhere(s.done, id);
      assert MailFor([me] + s.todo, x) == [env];
    } else {
      assert MailFor([me] + s.todo, x) == [] + MailFor(s.todo, x) == MailFor(s.todo, x);
    }
  }

  lemma ReceivePending<S, M>(s: Sys<S, M>, id: Id, call: Call<S, M>, x: Id)
    requires call.Receive? && Places(s, id) == 0 && x in s.boxes
    ensures Pending(Handle(s, id, call), x) == Pending(s, x)
  {
    hide Uncons, Contents, MailFor;
    var box := if id in s.boxes then s.boxes[id] else Inbox(Empty());
    EmptyContents<Envelope<M>>();
    if box.Inbox? { UnconsTakes(box.q); }
    if box.Inbox? && Uncons(box.q).Some? {
      var first := Uncons(box.q).value;
      TakePending(s, id, call.cont, first.0, first.1, x);
    } else if call.nonblock {
      AnswerPending(s, id, call.cont, NoMail, x);
    } else {
      assert x == id ==> Held(s.boxes, x) == [];
    }
  }

  lemma EmptyContents<T>()
    ensures Contents<T>(Empty()) == []
  {
  }

  lemma AnswerPending<S, M>(s: Sys<S, M>, id: Id, cont: S, val: Answer<M>, x: Id)
    requires !val.Mail?
    ensures Pending(Answering(s, id, cont, val), x) == Pending(s, x)
    ensures Times(Answering(s, id, cont, val).todo, x) == Times(s.todo, x) + if x == id then 1 else 0
  {
    var todo := Answering(s, id, cont, val).todo;
    assert todo[1..] == s.todo;
  }

  lemma KillPending<S, M>(s: Sys<S, M>, id: Id, cont: S, target: Id, x: Id)
    requires Places(s, x) <= 1 && Places(s, id) == 0 && x in s.boxes && x != target
    ensures Pending(Handle(s, id, Kill(cont, target)), x)
         == Pending(s, x) + Notices(SubscribersOf(s, target), Envelope(target, KilledBy(id)), x)
  {
    var s1 := Answering(s, id, cont, Killing(target));
    var s2 := s1.(todo := DropFromList(s1.todo, target), done := DropFromList(s1.done, target));
    DropFromListTimes(s1.todo, target, x);
    DropFromListTimes(s1.done, target, x);
    DropFromListMail(s1.todo, target, x);
    DropFromListMail(s1.done, target, x);
    AnswerPending(s, id, cont, Killing(target), x);
    assert Pending(s2, x) == Pending(s1, x);
    DropPending(s2, target, Envelope(target, KilledBy(id)), x);
  }

  /** A call that ends the thread itself. */
  lemma EndHandled<S, M>(s: Sys<S, M>, id: Id, call: Call<S, M>, x: Id)
    requires call.Finish? || call.Crash? || call.Error? || call.MemoryLimit?
    requires Places(s, x) <= 1 && x in s.boxes && x in Handle(s, id, call).boxes
    ensures Pending(Handle(s, id, call), x) == Pending(s, x) + Sent(s, id, call, x)
  {
    hide Pending, DropDelivering;
    match call
    case Finish(info) => EndPending(s, id, Envelope(id, Finished(info)), x);
    case Crash(info) => EndPending(s, id, Envelope(id, Crashed(info)), x);
    case Error(info) => EndPending(s, id, Envelope(id, Erred(info)), x);
    case MemoryLimit(info) => EndPending(s, id, Envelope(id, OutOfMemory(info)), x);
  }

  /** Mail that is put back goes behind everything that is pending. */
  lemma ReturnPending<S, M>(s: Sys<S, M>, id: Id, call: Call<S, M>, x: Id)
    requires call.ReturnMails? && Places(s, id) == 0 && x in s.boxes
    ensures Pending(Handle(s, id, call), x) == Pending(s, x) + Back(id, call, x)
  {
    hide Contents, SnocAll;
    AnswerMail(Thread(id, Resume(call.cont, Answer.Done)), s.todo, x);
    var q := if id in s.boxes then s.boxes[id].q else Empty();
    SnocAllAdds(q, call.mails);
  }

  lemma SlicePending<S, M>(s: Sys<S, M>, id: Id, next: S, x: Id)
    ensures Pending(Handle(s, id, Slice(next)), x) == Pending(s, x)
  {
    AnswerMail(Thread(id, Suspended(next)), s.done, x);
  }

  lemma ParallelPending<S, M>(s: Sys<S, M>, id: Id, state: S, x: Id)
    ensures Pending(Handle(s, id, Parallel(state)), x) == Pending(s, x)
  {
    AnswerMail(Thread(id, Suspended(state)), s.todo, x);
  }

  /** A call that sends nothing and is answered, if at all, with something else than mail. */
  lemma QuietHandled<S, M>(s: Sys<S, M>, id: Id, call: Call<S, M>, x: Id)
    requires call.Slice? || call.AmIAlone? || call.RunningIds? || call.SetSignal? || call.AllIds? || call.SetReturn?
          || call.Parallel? || call.WrapWorld?
    ensures Pending(Handle(s, id, call), x) == Pending(s, x)
  {
    hide Pending, MailFor;
    match call
    case Slice(next) => SlicePending(s, id, next, x);
    case AmIAlone(cont) => AnswerPending(s, id, cont, Alone(s.todo == [] && s.done == []), x);
    case RunningIds(cont) => AnswerPending(s, id, cont, Running(Ids(s.todo) + Ids(s.done)), x);
    case SetSignal(cont) => AnswerPending(s, id, cont, Answer.Done, x);
    case AllIds(cont) => AnswerPending(s, id, cont, Running([id] + GrabIds(s.done, GrabIds(s.todo, []))), x);
    case SetReturn(cont) => AnswerPending(s, id, cont, Answer.Done, x);
    case Parallel(state) => ParallelPending(s, id, state, x);
    case WrapWorld(cont) => AnswerPending(s, id, cont, Answer.Done, x);
  }

  /** What is pending for x changes by what the call sends to x or x puts back, as long as x is not dropped. */
  lemma HandlePending<S, M>(s: Sys<S, M>, id: Id, call: Call<S, M>, x: Id)
    requires Unique(s) && Places(s, id) == 0 && Fresh(s, id, call)
    requires x in s.boxes && x in Handle(s, id, call).boxes
    ensures Pending(Handle(s, id, call), x) == Pending(s, x) + (Sent(s, id, call, x) + Back(id, call, x))
  {
    assert Places(s, x) <= 1;
    hide Pending, Handle, Unique, Places, Notices, SubscribersOf, Reversed;
    if call.ReturnMails? {
      ReturnPending(s, id, call, x);
    } else if call.Kill? {
      KillGone(s, id, call.cont, call.target);
      KillPending(s, id, call.cont, call.target, x);
    } else if call.Send? {
      SendPending(s, id, call.cont, call.to, call.msg, x);
    } else if call.Finish? || call.Crash? || call.Error? || call.MemoryLimit? {
      EndHandled(s, id, call, x);
    } else if call.Receive? {
      ReceivePending(s, id, call, x);
    } else if call.Fork? {
      ForkPending(s, id, call, x);
    } else {
      QuietHandled(s, id, call, x);
    }
  }

  lemma ForkPending<S, M>(s: Sys<S, M>, id: Id, call: Call<S, M>, x: Id)
    requires call.Fork? && x != call.id && call.id !in s.boxes && x in s.boxes
    ensures Pending(Handle(s, id, call), x) == Pending(s, x)
  {
    var s' := WithChild(s, id, call.cont, call.id, call.thunk);
    var two := s'.todo[1..];
    assert two[1..] == s.todo && MailFor(two, x) == MailFor(s.todo, x) == MailFor(s'.todo, x);
    ForkAllPlaces(s', id, call.id, call.opts);
  }

  lemma EndPending<S, M>(s: Sys<S, M>, id: Id, env: Envelope<M>, x: Id)
    requires x in s.boxes && Places(s, x) <= 1 && x in DropDelivering(s, id, env).boxes
    ensures Pending(DropDelivering(s, id, env), x) == Pending(s, x) + Notices(SubscribersOf(s, id), env, x)
  {
    DropPlaces(s, id, env, x);
    DropPending(s, id, env, x);
  }

  lemma KillGone<S, M>(s: Sys<S, M>, id: Id, cont: S, target: Id)
    ensures target !in Handle(s, id, Kill(cont, target)).boxes
    ensures SubscribersOf(Handle(s, id, Kill(cont, target)), target) == []
  {
    var s1 := Answering(s, id, cont, Killing(target));
    var s2 := s1.(todo := DropFromList(s1.todo, target), done := DropFromList(s1.done, target));
    DropPlaces(s2, target, Envelope(target, KilledBy(id)), target);
  }

  lemma SendPending<S, M>(s: Sys<S, M>, id: Id, cont: S, to: Id, msg: M, x: Id)
    requires Places(s, x) <= 1 && x in s.boxes
    ensures Pending(Handle(s, id, Send(cont, to, msg)), x)
         == Pending(s, x) + if to == x then [Envelope(id, Note(msg))] else []
  {
    var env := Envelope(id, Note(msg));
    var (boxes, waked) := Deliver(s.boxes, to, env);
    DeliverPending(s.todo, s.done, s.boxes, to, env, x);
    var me := Thread(id, Resume(cont, Delivered));
    if waked.Some? {
      TwoMore(me, waked.value, s.todo, x);
      AnswerMail(me, [waked.value] + s.todo, x);
    } else {
      AnswerMail(me, s.todo, x);
    }
  }

  lemma AnswerMail<S, M>(t: Thread<S, M>, l: seq<Thread<S, M>>, x: Id)
    requires !(t.exec.Resume? && t.exec.val.Mail?)
    ensures MailFor([t] + l, x) == MailFor(l, x)
  {
    assert ([t] + l)[1..] == l;
  }

  // ---- What each thread does next ----

  function Look<S, M>(l: seq<Thread<S, M>>, x: Id): Option<Exec<S, M>> {
    if l == [] then None else if l[0].id == x then Some(l[0].exec) else Look(l[1..], x)
  }

  /** What x is to do when it has its turn; a thread that waits for mail, or is not there, does nothing. */
  function Doing<S, M>(s: Sys<S, M>, x: Id): Option<Exec<S, M>> {
    if Look(s.todo, x).Some? then Look(s.todo, x) else Look(s.done, x)
  }

  /** The continuation with which x waits for mail. */
  function Awaiting<S, M>(boxes: map<Id, Box<S, M>>, x: Id): Option<S> {
    if x in boxes && boxes[x].Waiting? then Some(boxes[x].cont) else None
  }

  lemma {:induction false} LookTimes<S, M>(l: seq<Thread<S, M>>, x: Id)
    ensures Look(l, x).Some? <==> Times(l, x) > 0
  {
    if l != [] { LookTimes(l[1..], x); }
  }

  lemma LookCons<S, M>(t: Thread<S, M>, l: seq<Thread<S, M>>, x: Id)
    ensures Look([t] + l, x) == if t.id == x then Some(t.exec) else Look(l, x)
  {
    assert ([t] + l)[1..] == l;
  }

  lemma {:induction false} LookDrop<S, M>(l: seq<Thread<S, M>>, id: Id, x: Id)
    requires x != id
    ensures Look(DropFromList(l, id), x) == Look(l, x)
  {
    if l != [] && l[0].id != id {
      LookDrop(l[1..], id, x);
      LookCons(l[0], DropFromList(l[1..], id), x);
    }
  }

  lemma {:induction false} IdsLook<S, M>(l: seq<Thread<S, M>>, x: Id)
    ensures x in Ids(l) <==> Look(l, x).Some?
  {
    if l != [] { IdsLook(l[1..], x); }
  }

  lemma {:induction false} GrabLook<S, M>(l: seq<Thread<S, M>>, n: seq<Id>, x: Id)
    ensures x in GrabIds(l, n) <==> Look(l, x).Some? || x in n
    decreases |l|
  {
    if l != [] { GrabLook(l[1..], [l[0].id] + n, x); }
  }

  /** What a thread goes on with when an envelope is delivered to others and perhaps to itself. */
  ghost predicate GoesOn<S, M>(was: Option<Exec<S, M>>, cont: Option<S>, sent: seq<Envelope<M>>,
                               now: Option<Exec<S, M>>,
          cont': Option<S>) {
    if cont.Some? && sent != [] then now == Some(Resume(cont.value, Mail(sent[0]))) && cont'.None?
    else now == was && cont' == cont
  }

  lemma DeliverGoesOn<S, M>(todo: seq<Thread<S, M>>, boxes: map<Id, Box<S, M>>, to: Id, env: Envelope<M>, x: Id)
    requires Times(todo, x) + Blocked(boxes, x) <= 1
    ensures var (boxes', waked) := Deliver(boxes, to, env);
            var todo' := if waked.Some? then [waked.value] + todo else todo;
            && Times(todo', x) + Blocked(boxes', x) == Times(todo, x) + Blocked(boxes, x)
            && GoesOn(Look(todo, x), Awaiting(boxes, x), if to == x then [env] else [],
                      Look(todo', x), Awaiting(boxes', x))
  {
    LookTimes(todo, x);
    var (boxes', waked) := Deliver(boxes, to, env);
    if waked.Some? { LookCons(waked.value, todo, x); }
  }

  lemma {:induction false} DeliverAllGoesOn<S, M>(todo: seq<Thread<S, M>>, boxes: map<Id, Box<S, M>>, subs: seq<Id>,
          env: Envelope<M>, x: Id)
    requires Times(todo, x) + Blocked(boxes, x) <= 1
    ensures var (todo', boxes') := DeliverAll(todo, boxes, subs, env);
            GoesOn(Look(todo, x), Awaiting(boxes, x), Notices(subs, env, x), Look(todo', x), Awaiting(boxes', x))
    decreases |subs|
  {
    hide Look, Times, Blocked, Deliver, Awaiting;
    if subs != [] {
      DeliverGoesOn(todo, boxes, subs[0], env, x);
      var (boxes', waked) := Deliver(boxes, subs[0], env);
      DeliverAllGoesOn(if waked.Some? then [waked.value] + todo else todo, boxes', subs[1..], env, x);
      if subs[0] == x { assert ([env] + Notices(subs[1..], env, x))[0] == env; }
    }
  }

  ghost predicate StaysOrWakes<S, M>(s: Sys<S, M>, s': Sys<S, M>, y: Id, sent: seq<Envelope<M>>) {
    GoesOn(Doing(s, y), Awaiting(s.boxes, y), sent, Doing(s', y), Awaiting(s'.boxes, y))
  }

  lemma DropGoesOn<S, M>(s: Sys<S, M>, d: Id, env: Envelope<M>, y: Id)
    requires y != d && Places(s, y) <= 1
    ensures StaysOrWakes(s, DropDelivering(s, d, env), y, Notices(SubscribersOf(s, d), env, y))
  {
    hide DeliverAll, Deliver;
    DeliverAllGoesOn(s.todo, s.boxes - {d}, SubscribersOf(s, d), env, y);
    LookTimes(s.done, y);
    LookTimes(s.todo, y);
  }

  lemma SendGoesOn<S, M>(s: Sys<S, M>, id: Id, call: Call<S, M>, y: Id)
    requires call.Send? && y != id && Places(s, y) <= 1
    ensures StaysOrWakes(s, Handle(s, id, call), y, Sent(s, id, call, y))
  {
    var env, me := Envelope(id, Note(call.msg)), Thread(id, Resume(call.cont, Delivered));
    var (boxes, waked) := Deliver(s.boxes, call.to, env);
    DeliverGoesOn(s.todo, s.boxes, call.to, env, y);
    LookTimes(s.done, y);
    if waked.Some? {
      TwoMore(me, waked.value, s.todo, y);
      LookCons(me, [waked.value] + s.todo, y);
    } else {
      LookCons(me, s.todo, y);
    }
  }

  lemma KillGoesOn<S, M>(s: Sys<S, M>, id: Id, call: Call<S, M>, y: Id)
    requires call.Kill? && y != id && y != call.target && Places(s, y) <= 1
    ensures StaysOrWakes(s, Handle(s, id, call), y, Sent(s, id, call, y))
  {
    var d, s1 := call.target, Answering(s, id, call.cont, Killing(call.target));
    var s2 := s1.(todo := DropFromList(s1.todo, d), done := DropFromList(s1.done, d));
    LookCons(Thread(id, Resume(call.cont, Killing(d))), s.todo, y);
    LookDrop(s1.todo, d, y);
    LookDrop(s1.done, d, y);
    DropFromListTimes(s1.todo, d, y);
    DropFromListTimes(s1.done, d, y);
    assert s1.todo[1..] == s.todo;
    DropGoesOn(s2, d, Envelope(d, KilledBy(id)), y);
  }

  lemma QuietGoesOn<S, M>(s: Sys<S, M>, id: Id, call: Call<S, M>, y: Id)
    requires Ended(id, call).None? && !call.Send? && !call.Fork? && y != id && Places(s, id) == 0
    ensures StaysOrWakes(s, Handle(s, id, call), y, Sent(s, id, call, y))
  {
    var s' := Handle(s, id, call);
    if s'.todo != s.todo { LookCons(s'.todo[0], s.todo, y); }
    if s'.done != s.done { LookCons(s'.done[0], s.done, y); }
  }

  lemma ForkGoesOn<S, M>(s: Sys<S, M>, id: Id, call: Call<S, M>, y: Id)
    requires call.Fork? && y != id && y != call.id && call.id !in s.boxes
    ensures StaysOrWakes(s, Handle(s, id, call), y, Sent(s, id, call, y))
  {
    var s1 := WithChild(s, id, call.cont, call.id, call.thunk);
    var me := Thread(id, Resume(call.cont, Forked(call.id)));
    TwoMore(s1.todo[0], me, s.todo, y);
    LookCons(s1.todo[0], [me] + s.todo, y);
    LookCons(me, s.todo, y);
    ForkAllPlaces(s1, id, call.id, call.opts);
  }

  lemma HandleGoesOn<S, M>(s: Sys<S, M>, id: Id, call: Call<S, M>, y: Id)
    requires Unique(s) && Places(s, id) == 0 && Fresh(s, id, call)
    requires y != id && !Ends(id, call, y) && !(call.Fork? && y == call.id)
    ensures StaysOrWakes(s, Handle(s, id, call), y, Sent(s, id, call, y))
  {
    assert Places(s, y) <= 1;
    hide Unique, StaysOrWakes, DropDelivering;
    match call
    case Finish(info) => DropGoesOn(s, id, Envelope(id, Finished(info)), y);
    case Crash(info) => DropGoesOn(s, id, Envelope(id, Crashed(info)), y);
    case Error(info) => DropGoesOn(s, id, Envelope(id, Erred(info)), y);
    case MemoryLimit(info) => DropGoesOn(s, id, Envelope(id, OutOfMemory(info)), y);
    case Fork(_, _, _, _) => ForkGoesOn(s, id, call, y);
    case Send(_, _, _) => SendGoesOn(s, id, call, y);
    case Kill(_, _) => KillGoesOn(s, id, call, y);
    case _ => QuietGoesOn(s, id, call, y);
  }

  lemma OthersDoing<S, M>(s: Sys<S, M>, y: Id)
    requires !Halted(s) && Unique(s)
    ensures y != Current(s).id ==> Doing(Others(s), y) == Doing(s, y)
    ensures Doing(s, Current(s).id) == Some(Current(s).exec) && Doing(Others(s), Current(s).id).None?
  {
    var t, id := Turn(s), Current(s).id;
    assert Doing(t, y) == Doing(s, y) && Doing(t, id) == Doing(s, id);
    assert t.todo == [t.todo[0]] + t.todo[1..];
    LookCons(t.todo[0], t.todo[1..], y);
    OthersPlaces(s);
    LookTimes(Others(s).todo, id);
    LookTimes(Others(s).done, id);
  }

  /** Whoever has not made the call, is not ended by it and is not its child does next what it was to do before, or, if
      it waits for mail and some is sent to it, goes on with the first of that. */
  lemma OthersGoOn<S, M>(s: Sys<S, M>, call: Call<S, M>, y: Id)
    requires !Halted(s) && Unique(s) && Fresh(Others(s), Current(s).id, call)
    requires y != Current(s).id && !Ends(Current(s).id, call, y) && !(call.Fork? && y == call.id)
    ensures StaysOrWakes(s, Step(s, call), y, Sent(Others(s), Current(s).id, call, y))
  {
    OthersPlaces(s);
    OthersDoing(s, y);
    HandleGoesOn(Others(s), Current(s).id, call, y);
  }

  /** The thread y is about to run, now or in this round or the next. */
  ghost predicate Runs<S, M>(s: Sys<S, M>, y: Id) {
    Doing(s, y).Some?
  }

  /** What the controller answers to thread x: nobody else runs, or who does. */
  ghost predicate Answers<S, M>(s: Sys<S, M>, x: Id, call: Call<S, M>, val: Answer<M>) {
    match call
    case Fork(_, child, _, _) => val == Forked(child)
    case AmIAlone(_) => val.Alone? && (val.yes <==> forall y :: y != x ==> !Runs(s, y))
    case RunningIds(_) => val.Running? && forall y :: y in val.ids <==> y != x && Runs(s, y)
    case AllIds(_) => val.Running? && forall y :: y in val.ids <==> Runs(s, y)
    case Send(_, _, _) => val == Delivered
    case Receive(_, _) => if Held(s.boxes, x) == [] then val == NoMail else val == Mail(Held(s.boxes, x)[0])
    case Kill(_, target) => val == Killing(target)
    case _ => val == Answer.Done
  }

  /** How the thread that made the call goes on. */
  ghost predicate CallerGoesOn<S, M>(s: Sys<S, M>, x: Id, call: Call<S, M>, s': Sys<S, M>) {
    match call
    case Slice(next) => Doing(s', x) == Some(Suspended(next))
    case Parallel(state) => Doing(s', x) == Some(Suspended(state))
    case Receive(cont, nonblock) =>
      if nonblock || Held(s.boxes, x) != [] then Resumed(s, x, call, s')
      else Doing(s', x).None? && Awaiting(s'.boxes, x) == Some(cont)
    case _ => Resumed(s, x, call, s')
  }

  /** Where a thread wants the answer to its call. */
  function ContOf<S, M>(call: Call<S, M>): Option<S> {
    match call
    case Slice(_) => None
    case Parallel(_) => None
    case Finish(_) => None
    case Crash(_) => None
    case Error(_) => None
    case MemoryLimit(_) => None
    case _ => Some(call.cont)
  }

  ghost predicate Resumed<S, M>(s: Sys<S, M>, x: Id, call: Call<S, M>, s': Sys<S, M>) {
    var e := Doing(s', x);
    e.Some? && e.value.Resume? && Some(e.value.cont) == ContOf(call) && Answers(s, x, call, e.value.val)
  }

  lemma CallerResumed<S, M>(s: Sys<S, M>, x: Id, call: Call<S, M>, s': Sys<S, M>, val: Answer<M>)
    requires ContOf(call).Some? && Answers(s, x, call, val)
    requires Doing(s', x) == Some(Resume(ContOf(call).value, val))
    requires call.Receive? ==> call.nonblock || Held(s.boxes, x) != []
    ensures CallerGoesOn(s, x, call, s')
  {
  }

  lemma Nobody<S, M>(s: Sys<S, M>, x: Id)
    requires !Halted(s) && Unique(s) && x == Current(s).id
    ensures Others(s).todo == [] && Others(s).done == [] <==> forall y :: y != x ==> !Runs(s, y)
  {
    var o := Others(s);
    forall y | y != x ensures Runs(s, y) <==> Runs(o, y) {
      OthersDoing(s, y);
    }
    OthersPlaces(s);
    if o.todo != [] {
      var y := o.todo[0].id;
      assert Places(o, x) == 0 && Runs(o, y);
    } else if o.done != [] {
      var y := o.done[0].id;
      assert Places(o, x) == 0 && Runs(o, y);
    }
  }

  lemma Listed<S, M>(s: Sys<S, M>, x: Id, y: Id)
    requires !Halted(s) && Unique(s) && x == Current(s).id
    ensures var o := Others(s);
            && (y in Ids(o.todo) + Ids(o.done) <==> y != x && Runs(s, y))
            && (y in [x] + GrabIds(o.done, GrabIds(o.todo, [])) <==> Runs(s, y))
  {
    var o := Others(s);
    OthersDoing(s, y);
    IdsLook(o.todo, y);
    IdsLook(o.done, y);
    GrabLook(o.todo, [], y);
    GrabLook(o.done, GrabIds(o.todo, []), y);
  }

  lemma ReceiverGoesOn<S, M>(s: Sys<S, M>, x: Id, call: Call<S, M>)
    requires !Halted(s) && Unique(s) && x == Current(s).id && call.Receive?
    ensures CallerGoesOn(s, x, call, Step(s, call))
    ensures Held(s.boxes, x) != [] ==> Held(Step(s, call).boxes, x) == Held(s.boxes, x)[1..]
  {
    var o := Others(s);
    OthersPlaces(s);
    OthersDoing(s, x);
    EmptyContents<Envelope<M>>();
    assert Blocked(s.boxes, x) == 0;
    if x in s.boxes { UnconsTakes(s.boxes[x].q); }
    if Held(s.boxes, x) != [] {
      var env := Held(s.boxes, x)[0];
      LookCons(Thread(x, Resume(call.cont, Mail(env))), o.todo, x);
      CallerResumed(s, x, call, Step(s, call), Mail(env));
    } else if call.nonblock {
      LookCons(Thread(x, Resume(call.cont, NoMail)), o.todo, x);
      CallerResumed(s, x, call, Step(s, call), NoMail);
    }
  }

  lemma KillerGoesOn<S, M>(s: Sys<S, M>, x: Id, call: Call<S, M>)
    requires !Halted(s) && Unique(s) && x == Current(s).id && call.Kill? && call.target != x
    ensures Doing(Step(s, call), x) == Some(Resume(call.cont, Killing(call.target)))
  {
    var o, d := Others(s), call.target;
    OthersPlaces(s);
    var s1 := Answering(o, x, call.cont, Killing(d));
    var s2 := s1.(todo := DropFromList(s1.todo, d), done := DropFromList(s1.done, d));
    LookCons(Thread(x, Resume(call.cont, Killing(d))), o.todo, x);
    LookDrop(s1.todo, d, x);
    DropFromListTimes(s1.todo, d, x);
    DropFromListTimes(s1.done, d, x);
    assert s1.todo[1..] == o.todo;
    DropGoesOn(s2, d, Envelope(d, KilledBy(x)), x);
  }

  lemma SenderGoesOn<S, M>(s: Sys<S, M>, x: Id, call: Call<S, M>)
    requires !Halted(s) && x == Current(s).id && call.Send?
    ensures Doing(Step(s, call), x) == Some(Resume(call.cont, Delivered))
  {
    var me, rest := Thread(x, Resume(call.cont, Delivered)), Step(s, call).todo[1..];
    assert Step(s, call).todo == [me] + rest;
    LookCons(me, rest, x);
  }

  /** A fork starts the child on its own, tells the parent its name, and gives the child what was asked for: the parent
      to hear of its end, and an empty mailbox. */
  lemma ForkStarts<S, M>(s: Sys<S, M>, x: Id, call: Call<S, M>)
    requires !Halted(s) && x == Current(s).id && call.Fork? && Fresh(Others(s), x, call)
    ensures var s' := Step(s, call);
            && Doing(s', x) == Some(Resume(call.cont, Forked(call.id))) && Doing(s', call.id) == Some(Start(call.thunk))
            && SubscribersOf(s', call.id) == (if Link in call.opts then [x] else [])
            && (call.id in s'.boxes <==> Mailbox in call.opts)
            && (call.id in s'.boxes ==> s'.boxes[call.id].Inbox? && Held(s'.boxes, call.id) == [])
  {
    var o := Others(s);
    var s1 := WithChild(o, x, call.cont, call.id, call.thunk);
    ForkAllPlaces(s1, x, call.id, call.opts);
    ForkAllGives(s1, x, call.id, call.opts);
    LookCons(s1.todo[0], s1.todo[1..], x);
    LookCons(s1.todo[0], s1.todo[1..], call.id);
    assert s1.todo[1..] == [s1.todo[1]] + o.todo;
    LookCons(s1.todo[1], o.todo, x);
  }

  lemma {:induction false} ForkAllGives<S, M>(s: Sys<S, M>, id: Id, child: Id, opts: seq<ForkOption>)
    ensures var s' := ForkAll(s, id, child, opts);
            && SubscribersOf(s', child) == (if Link in opts then [id] else SubscribersOf(s, child))
            && (child in s'.boxes <==> Mailbox in opts || child in s.boxes)
            && (Mailbox in opts ==> s'.boxes[child] == Inbox(Empty()))
            && (Mailbox !in opts && child in s.boxes ==> s'.boxes[child] == s.boxes[child])
    decreases |opts|
  {
    if opts != [] { ForkAllGives(ForkOne(s, id, child, opts[0]), id, child, opts[1..]); }
  }

  /** The thread that made the call goes on with its new state after a slice, and otherwise with its answer; a thread
      that waits for mail and has none is blocked with its continuation. */
  lemma CallerGoes<S, M>(s: Sys<S, M>, call: Call<S, M>)
    requires !Halted(s) && Unique(s) && Fresh(Others(s), Current(s).id, call)
          && !Ends(Current(s).id, call, Current(s).id)
    ensures CallerGoesOn(s, Current(s).id, call, Step(s, call))
  {
    var x, o, s' := Current(s).id, Others(s), Step(s, call);
    OthersDoing(s, x);
    match call
    case Slice(next) => LookCons(Thread(x, Suspended(next)), o.done, x);
    case Parallel(state) => LookCons(Thread(x, Suspended(state)), o.todo, x);
    case Receive(_, _) => ReceiverGoesOn(s, x, call);
    case Kill(_, target) =>
      KillerGoesOn(s, x, call);
      CallerResumed(s, x, call, s', Killing(target));
    case Send(_, _, _) =>
      SenderGoesOn(s, x, call);
      CallerResumed(s, x, call, s', Delivered);
    case Fork(_, child, _, _) =>
      ForkStarts(s, x, call);
      CallerResumed(s, x, call, s', Forked(child));
    case _ => PlainlyAnswered(s, x, call);
  }

  lemma PlainlyAnswered<S, M>(s: Sys<S, M>, x: Id, call: Call<S, M>)
    requires !Halted(s) && Unique(s) && x == Current(s).id && Ended(x, call).None?
    requires !call.Slice? && !call.Parallel? && !call.Receive? && !call.Send? && !call.Fork?
    ensures CallerGoesOn(s, x, call, Step(s, call))
  {
    var o, s' := Others(s), Step(s, call);
    OthersPlaces(s);
    assert s'.todo[0].id == x && s'.todo == [s'.todo[0]] + o.todo;
    LookCons(s'.todo[0], o.todo, x);
    Nobody(s, x);
    forall y ensures y in Ids(o.todo) + Ids(o.done) <==> y != x && Runs(s, y) { Listed(s, x, y); }
    forall y ensures y in [x] + GrabIds(o.done, GrabIds(o.todo, [])) <==> Runs(s, y) { Listed(s, x, y); }
    CallerResumed(s, x, call, s', s'.todo[0].exec.val);
  }

  // ---- Taking turns ----

  /** Once everybody has made a slice, everybody is done for this round, the last one first. */
  lemma {:induction false} RoundServes<S, M>(s: Sys<S, M>, calls: seq<Call<S, M>>)
    requires |calls| == |s.todo| && forall i :: 0 <= i < |calls| ==> calls[i].Slice?
    ensures var s' := Run(s, calls);
            s'.todo == [] && Ids(s'.done) == Reversed(Ids(s.todo)) + Ids(s.done) && s'.boxes == s.boxes
    ensures forall i :: 0 <= i < |calls| ==>
            !Halted(Run(s, calls[..i])) && Current(Run(s, calls[..i])).id == s.todo[i].id
    decreases |calls|
  {
    if calls == [] {
      assert [] + Ids(s.done) == Ids(s.done);
    } else {
      var x, s1 := s.todo[0].id, Step(s, calls[0]);
      RoundServes(s1, calls[1..]);
      assert s1.todo == s.todo[1..] && s1.done[1..] == s.done;
      assert Reversed(Ids(s.todo)) + Ids(s.done) == Reversed(Ids(s.todo[1..])) + ([x] + Ids(s.done)) by {
        assert Ids(s.todo)[1..] == Ids(s.todo[1..]) && Ids(s.todo)[0] == x;
      }
      forall i | 0 <= i < |calls|
        ensures !Halted(Run(s, calls[..i])) && Current(Run(s, calls[..i])).id == s.todo[i].id
      {
        if i > 0 { assert calls[..i][1..] == calls[1..][..i - 1] && calls[..i][0] == calls[0]; }
      }
    }
  }

  /** An answer does not cost a thread its turn; only a forked child goes first. */
  lemma TurnKept<S, M>(s: Sys<S, M>, call: Call<S, M>)
    requires !Halted(s) && Unique(s) && Ended(Current(s).id, call).None? && !call.Slice?
    requires call.Receive? ==> call.nonblock || Held(s.boxes, Current(s).id) != []
    ensures !Halted(Step(s, call)) && Current(Step(s, call)).id == if call.Fork? then call.id else Current(s).id
  {
    var x, o := Current(s).id, Others(s);
    OthersPlaces(s);
    EmptyContents<Envelope<M>>();
    if call.Receive? && x in s.boxes { UnconsTakes(s.boxes[x].q); }
    if call.Fork? { ForkKeepsTodo(WithChild(o, x, call.cont, call.id, call.thunk), x, call.id, call.opts); }
  }

  lemma {:induction false} ForkKeepsTodo<S, M>(s: Sys<S, M>, id: Id, child: Id, opts: seq<ForkOption>)
    ensures ForkAll(s, id, child, opts).todo == s.todo
    decreases |opts|
  {
    if opts != [] { ForkKeepsTodo(ForkOne(s, id, child, opts[0]), id, child, opts[1..]); }
  }

  // ---- Whole runs ----

  function Run<S, M>(s: Sys<S, M>, calls: seq<Call<S, M>>): Sys<S, M>
    decreases |calls|
  {
    if calls == [] || Halted(s) then s else Run(Step(s, calls[0]), calls[1..])
  }

  /** Every fork uses a new name. */
  predicate FreshForks<S, M>(s: Sys<S, M>, calls: seq<Call<S, M>>)
    decreases |calls|
  {
    calls == [] || Halted(s) ||
    (Fresh(Others(s), Current(s).id, calls[0]) && FreshForks(Step(s, calls[0]), calls[1..]))
  }

  /** x has its mailbox all the time. */
  predicate Alive<S, M>(s: Sys<S, M>, calls: seq<Call<S, M>>, x: Id)
    decreases |calls|
  {
    x in s.boxes && (calls == [] || Halted(s) || Alive(Step(s, calls[0]), calls[1..], x))
  }

  /** The envelopes that x has actually been resumed with during the run. */
  function Got<S, M>(s: Sys<S, M>, calls: seq<Call<S, M>>, x: Id): seq<Envelope<M>>
    decreases |calls|
  {
    if calls == [] || Halted(s) then []
    else MailFor([Current(s)], x) + Got(Step(s, calls[0]), calls[1..], x)
  }

  function AllSent<S, M>(s: Sys<S, M>, calls: seq<Call<S, M>>, x: Id): seq<Envelope<M>>
    decreases |calls|
  {
    if calls == [] || Halted(s) then []
    else Sent(Others(s), Current(s).id, calls[0], x) + AllSent(Step(s, calls[0]), calls[1..], x)
  }

  /** What x puts back during the run. */
  function AllBack<S, M>(s: Sys<S, M>, calls: seq<Call<S, M>>, x: Id): seq<Envelope<M>>
    decreases |calls|
  {
    if calls == [] || Halted(s) then []
    else Back(Current(s).id, calls[0], x) + AllBack(Step(s, calls[0]), calls[1..], x)
  }

  /** What is sent to x and what x puts back, as it happens. */
  function AllPut<S, M>(s: Sys<S, M>, calls: seq<Call<S, M>>, x: Id): seq<Envelope<M>>
    decreases |calls|
  {
    if calls == [] || Halted(s) then []
    else
      var id := Current(s).id;
      (Sent(Others(s), id, calls[0], x) + Back(id, calls[0], x)) + AllPut(Step(s, calls[0]), calls[1..], x)
  }

  /** Some call of the run ends x. */
  predicate EndsIn<S, M>(s: Sys<S, M>, calls: seq<Call<S, M>>, x: Id)
    decreases |calls|
  {
    calls != [] && !Halted(s) && (Ends(Current(s).id, calls[0], x) || EndsIn(Step(s, calls[0]), calls[1..], x))
  }

  predicate NeverForks<S, M>(calls: seq<Call<S, M>>, d: Id) {
    forall i :: 0 <= i < |calls| ==> !(calls[i].Fork? && calls[i].id == d)
  }

  /** No thread is lost: over any run, one that is not ended stays in exactly one place. */
  lemma {:induction false} RunKeeps<S, M>(s: Sys<S, M>, calls: seq<Call<S, M>>, x: Id)
    requires Unique(s) && FreshForks(s, calls) && Places(s, x) == 1 && !EndsIn(s, calls, x)
    ensures Places(Run(s, calls), x) == 1
    decreases |calls|
  {
    if calls != [] && !Halted(s) {
      StepPlaces(s, calls[0], x);
      StepUnique(s, calls[0]);
      RunKeeps(Step(s, calls[0]), calls[1..], x);
    }
  }

  /** And unless it is forked again, it is nowhere after a run just when it was nowhere before or has been ended. */
  lemma {:induction false} RunPlaces<S, M>(s: Sys<S, M>, calls: seq<Call<S, M>>, x: Id)
    requires Unique(s) && FreshForks(s, calls) && NeverForks(calls, x)
    ensures Places(Run(s, calls), x) == if EndsIn(s, calls, x) then 0 else Places(s, x)
    decreases |calls|
  {
    if calls != [] && !Halted(s) {
      StepPlaces(s, calls[0], x);
      StepUnique(s, calls[0]);
      RunPlaces(Step(s, calls[0]), calls[1..], x);
      if Ends(Current(s).id, calls[0], x) { assert Places(Step(s, calls[0]), x) == 0; }
    }
  }

  lemma {:induction false} RunUnique<S, M>(s: Sys<S, M>, calls: seq<Call<S, M>>)
    requires Unique(s) && FreshForks(s, calls)
    ensures Unique(Run(s, calls))
    decreases |calls|
  {
    if calls != [] && !Halted(s) {
      StepUnique(s, calls[0]);
      RunUnique(Step(s, calls[0]), calls[1..]);
    }
  }

  lemma TurnPending<S, M>(s: Sys<S, M>, x: Id)
    ensures Pending(Turn(s), x) == Pending(s, x)
  {
    if s.todo == [] {
      var a := MailFor(s.done, x);
      assert [] + a == a == a + [];
    }
  }

  lemma CurrentMail<S, M>(s: Sys<S, M>, x: Id)
    requires !Halted(s)
    ensures Pending(s, x) == MailFor([Current(s)], x) + Pending(Others(s), x)
  {
    hide MailFor, Held;
    TurnPending(s, x);
    var t := Turn(s);
    MailFirst(t.todo, x);
    var now, rest, done, held := MailFor([t.todo[0]], x), MailFor(t.todo[1..], x), MailFor(t.done, x), Held(t.boxes, x);
    assert now + rest + done + held == now + (rest + done + held);
  }

  lemma MailFirst<S, M>(l: seq<Thread<S, M>>, x: Id)
    requires l != []
    ensures MailFor(l, x) == MailFor([l[0]], x) + MailFor(l[1..], x)
  {
    assert [l[0]][1..] == [] && MailFor([l[0]][1..], x) == [];
  }

  lemma Reassociate<T>(now: seq<T>, later: seq<T>, end: seq<T>, others: seq<T>, sent: seq<T>, rest: seq<T>)
    requires later + end == (others + sent) + rest
    ensures (now + later) + end == (now + others) + (sent + rest)
  {
    assert (now + later) + end == now + (later + end);
    assert (now + others) + (sent + rest) == now + ((others + sent) + rest);
  }

  /** Mail is neither lost, invented, doubled nor reordered: over any run in which x keeps its mailbox, what x has
      been given, followed by what is still pending, is what was pending at the start followed by what was sent to x
      and what x put back, in the order in which that happened. */
  lemma {:induction false} MailConserved<S, M>(s: Sys<S, M>, calls: seq<Call<S, M>>, x: Id)
    requires Unique(s) && FreshForks(s, calls) && Alive(s, calls, x)
    ensures Got(s, calls, x) + Pending(Run(s, calls), x) == Pending(s, x) + AllPut(s, calls, x)
    decreases |calls|
  {
    hide Pending, Sent, Back, Unique, Handle;
    if calls != [] && !Halted(s) {
      var s', o, id := Step(s, calls[0]), Others(s), Current(s).id;
      OthersPlaces(s);
      StepUnique(s, calls[0]);
      CurrentMail(s, x);
      HandlePending(o, id, calls[0], x);
      MailConserved(s', calls[1..], x);
      Reassociate(MailFor([Current(s)], x), Got(s', calls[1..], x), Pending(Run(s', calls[1..]), x), Pending(o, x),
                  Sent(o, id, calls[0], x) + Back(id, calls[0], x), AllPut(s', calls[1..], x));
    }
  }

  /** A thread that puts nothing back gets its mail first in, first out, whatever the others do. */
  lemma {:induction false} NothingBack<S, M>(s: Sys<S, M>, calls: seq<Call<S, M>>, x: Id)
    requires AllBack(s, calls, x) == []
    ensures AllPut(s, calls, x) == AllSent(s, calls, x)
    decreases |calls|
  {
    hide Sent, Back, Handle;
    if calls != [] && !Halted(s) {
      NothingBack(Step(s, calls[0]), calls[1..], x);
    }
  }

  lemma InOrder<S, M>(s: Sys<S, M>, calls: seq<Call<S, M>>, x: Id)
    requires Unique(s) && FreshForks(s, calls) && Alive(s, calls, x) && AllBack(s, calls, x) == []
    ensures Got(s, calls, x) + Pending(Run(s, calls), x) == Pending(s, x) + AllSent(s, calls, x)
  {
    MailConserved(s, calls, x);
    NothingBack(s, calls, x);
  }

  // ---- accept-mail ----

  /** accept-mail takes mail until it gets one that is wanted. */
  function Receives<S, M>(cont: S, k: nat): seq<Call<S, M>> {
    if k == 0 then [] else [Receive(cont, false)] + Receives(cont, k - 1)
  }

  /** It is the turn of thread id, which has this mail in its inbox. */
  ghost predicate Reading<S, M>(s: Sys<S, M>, id: Id, mail: seq<Envelope<M>>) {
    && s.todo != [] && s.todo[0].id == id && id in s.boxes && s.boxes[id].Inbox? && Contents(s.boxes[id].q) == mail
  }

  lemma ReceiveOne<S, M>(s: Sys<S, M>, id: Id, cont: S, mail: seq<Envelope<M>>)
    requires Reading(s, id, mail) && mail != []
    ensures var t := Step(s, Receive(cont, false));
            Reading(t, id, mail[1..]) && t.todo[0].exec == Resume(cont, Mail(mail[0]))
  {
    var q := s.boxes[id].q;
    UnconsTakes(q);
    var first := Uncons(q).value;
    assert mail == [first.0] + Contents(first.1);
    assert mail[1..] == Contents(first.1);
  }

  lemma {:induction false} ReceiveMany<S, M>(s: Sys<S, M>, id: Id, cont: S, mail: seq<Envelope<M>>, k: nat)
    requires Reading(s, id, mail) && k <= |mail|
    ensures var t := Run(s, Receives(cont, k));
            Reading(t, id, mail[k..]) && (k > 0 ==> t.todo[0].exec == Resume(cont, Mail(mail[k - 1])))
    decreases k
  {
    hide Handle, Contents;
    if k > 0 {
      var call: Call<S, M> := Receive(cont, false);
      ReceiveOne(s, id, cont, mail);
      assert Receives<S, M>(cont, k)[1..] == Receives<S, M>(cont, k - 1);
      ReceiveMany(Step(s, call), id, cont, mail[1..], k - 1);
      assert mail[1..][k - 1..] == mail[k..];
      assert k == 1 ==> Run(s, Receives(cont, k)) == Step(s, call);
    }
  }
  /** When the first k mails are skipped, the next one is given, and those skipped are put back, newest first: they
      end up in their order, but behind all the others. */
  lemma AcceptReorders<S, M>(s: Sys<S, M>, id: Id, cont: S, mail: seq<Envelope<M>>, k: nat)
    requires Reading(s, id, mail) && k < |mail|
    ensures var t := Run(s, Receives(cont, k + 1));
            && t.todo != [] && t.todo[0].exec == Resume(cont, Mail(mail[k]))
            && Reading(Step(t, ReturnMails(cont, Reversed(mail[..k]))), id, mail[k + 1..] + mail[..k])
  {
    ReceiveMany(s, id, cont, mail, k + 1);
    var t := Run(s, Receives(cont, k + 1));
    ReverseTwice(mail[..k]);
    SnocAllAdds(t.boxes[id].q, Reversed(mail[..k]));
  }

  // ---- Ends are told once ----

  /** The thread d is nowhere, has no entry, and nobody is waiting to hear of it. */
  ghost predicate Gone<S, M>(s: Sys<S, M>, d: Id) {
    Places(s, d) == 0 && d !in s.boxes && SubscribersOf(s, d) == []
  }

  /** Only the thread that forked it is ever subscribed to a thread. */
  predicate OneSubscriber<S, M>(s: Sys<S, M>) {
    forall k :: k in s.links ==> |s.links[k]| == 1
  }

  lemma HandleLinks<S, M>(s: Sys<S, M>, id: Id, call: Call<S, M>, d: Id)
    requires Fresh(s, id, call)
    ensures var links := Handle(s, id, call).links;
            d in links ==> (d in s.links && links[d] == s.links[d]) || (call.Fork? && d == call.id && links[d] == [id])
  {
    match call
    case Fork(cont, child, opts, thunk) =>
      ForkAllPlaces(WithChild(s, id, cont, child, thunk), id, child, opts);
    case _ =>
  }

  lemma StepOneSubscriber<S, M>(s: Sys<S, M>, call: Call<S, M>)
    requires !Halted(s) && OneSubscriber(s) && Fresh(Others(s), Current(s).id, call)
    ensures OneSubscriber(Step(s, call))
  {
    forall k | k in Step(s, call).links ensures |Step(s, call).links[k]| == 1 {
      HandleLinks(Others(s), Current(s).id, call, k);
    }
  }

  /** A thread that ends is gone, and its one subscriber, if it has a mailbox, is told so by exactly
      one envelope after everything pending; nobody else hears of it. */
  lemma EndTold<S, M>(s: Sys<S, M>, call: Call<S, M>, x: Id)
    requires !Halted(s) && Unique(s) && OneSubscriber(s) && Ended(Current(s).id, call).Some?
    ensures var (d, env) := Ended(Current(s).id, call).value;
            && Gone(Step(s, call), d)
            && (x in s.boxes && x != d ==>
                  Pending(Step(s, call), x) == Pending(Others(s), x) + if SubscribersOf(s, d) == [x] then [env] else [])
  {
    OthersPlaces(s);
    var o, id := Others(s), Current(s).id;
    var (d, env) := Ended(id, call).value;
    assert Places(o, d) <= 1 && Places(o, x) <= 1;
    OneNotice(SubscribersOf(s, d), env, x);
    if call.Kill? {
      KillPlaces(o, id, call.cont, d, d);
      KillGone(o, id, call.cont, d);
      if x in s.boxes && x != d { KillPending(o, id, call.cont, d, x); }
    } else {
      DropPlaces(o, id, env, id);
      if x in s.boxes && x != d { DropPending(o, id, env, x); }
    }
  }

  lemma OneNotice<M>(subs: seq<Id>, env: Envelope<M>, x: Id)
    requires |subs| <= 1
    ensures Notices(subs, env, x) == if subs == [x] then [env] else []
  {
  }

  lemma {:induction false} NoticesFrom<M>(subs: seq<Id>, env: Envelope<M>, x: Id)
    ensures forall i :: 0 <= i < |Notices(subs, env, x)| ==> Notices(subs, env, x)[i] == env
  {
    if subs != [] { NoticesFrom(subs[1..], env, x); }
  }

  /** A thread that is gone, and not forked again, is not heard of again: nothing more is sent in its
      name, whatever is done to it. */
  lemma {:induction false} GoneSilent<S, M>(s: Sys<S, M>, calls: seq<Call<S, M>>, d: Id, x: Id)
    requires Unique(s) && FreshForks(s, calls) && Gone(s, d) && NeverForks(calls, d)
    ensures forall i :: 0 <= i < |AllSent(s, calls, x)| ==> AllSent(s, calls, x)[i].from != d
    decreases |calls|
  {
    if calls != [] && !Halted(s) {
      StepUnique(s, calls[0]);
      GoneStep(s, calls[0], d, x);
      GoneSilent(Step(s, calls[0]), calls[1..], d, x);
    }
  }

  lemma GoneStep<S, M>(s: Sys<S, M>, call: Call<S, M>, d: Id, x: Id)
    requires !Halted(s) && Unique(s) && Fresh(Others(s), Current(s).id, call)
    requires Gone(s, d) && !(call.Fork? && call.id == d)
    ensures Gone(Step(s, call), d)
    ensures var sent := Sent(Others(s), Current(s).id, call, x);
            forall i :: 0 <= i < |sent| ==> sent[i].from != d
  {
    OthersPlaces(s);
    var o, id := Others(s), Current(s).id;
    GoneIsNotCurrent(s, d);
    HandlePlaces(o, id, call, d);
    HandleLinks(o, id, call, d);
    GoneBoxes(o, id, call, d);
    var ended := Ended(id, call);
    if ended.Some? {
      NoticesFrom(SubscribersOf(o, ended.value.0), ended.value.1, x);
    }
  }

  lemma GoneIsNotCurrent<S, M>(s: Sys<S, M>, d: Id)
    requires !Halted(s) && Places(s, d) == 0
    ensures Current(s).id != d && Places(Others(s), d) == 0
  {
    assert Places(Turn(s), d) == Places(s, d);
  }

  lemma GoneBoxes<S, M>(s: Sys<S, M>, id: Id, call: Call<S, M>, d: Id)
    requires d != id && d !in s.boxes && !(call.Fork? && call.id == d)
    requires call.Fork? ==> call.id !in s.boxes
    ensures d !in Handle(s, id, call).boxes
  {
    match call
    case Finish(info) => DropPlaces(s, id, Envelope(id, Finished(info)), d);
    case Crash(info) => DropPlaces(s, id, Envelope(id, Crashed(info)), d);
    case Error(info) => DropPlaces(s, id, Envelope(id, Erred(info)), d);
    case MemoryLimit(info) => DropPlaces(s, id, Envelope(id, OutOfMemory(info)), d);
    case Fork(cont, child, opts, thunk) =>
      ForkAllPlaces(WithChild(s, id, cont, child, thunk), id, child, opts);
    case Kill(cont, target) =>
      var s1 := Answering(s, id, cont, Killing(target));
      var s2 := s1.(todo := DropFromList(s1.todo, target), done := DropFromList(s1.done, target));
      DropPlaces(s2, target, Envelope(target, KilledBy(id)), d);
    case _ =>
  }

  // ---- Over a whole run ----

  /** The envelopes that tell of the end of thread d. */
  function EndNotices<M>(mail: seq<Envelope<M>>, d: Id): nat {
    if mail == [] then 0
    else (if mail[0].from == d && !mail[0].word.Note? then 1 else 0) + EndNotices(mail[1..], d)
  }

  /** Thread d first comes to its end with the call after n others, when `subs` are subscribed to it. */
  predicate EndsAfter<S, M>(s: Sys<S, M>, calls: seq<Call<S, M>>, n: nat, d: Id, subs: seq<Id>): (r: bool)
    ensures r ==> n < |calls|
    decreases n
  {
    && calls != [] && !Halted(s)
    && var ended := Ended(Current(s).id, calls[0]);
       if n == 0 then ended.Some? && ended.value.0 == d && SubscribersOf(s, d) == subs
       else (ended.Some? ==> ended.value.0 != d) && EndsAfter(Step(s, calls[0]), calls[1..], n - 1, d, subs)
  }

  lemma {:induction false} EndNoticesJoin<M>(a: seq<Envelope<M>>, b: seq<Envelope<M>>, d: Id)
    ensures EndNotices(a + b, d) == EndNotices(a, d) + EndNotices(b, d)
  {
    if a == [] {
      assert a + b == b;
    } else {
      assert (a + b)[1..] == a[1..] + b;
      EndNoticesJoin(a[1..], b, d);
    }
  }

  lemma {:induction false} NoEndNotice<M>(mail: seq<Envelope<M>>, d: Id)
    requires forall i :: 0 <= i < |mail| ==> mail[i].from != d || mail[i].word.Note?
    ensures EndNotices(mail, d) == 0
  {
    if mail != [] { NoEndNotice(mail[1..], d); }
  }

  /** A call that does not end d sends no notice of its end. */
  lemma OthersEnd<S, M>(s: Sys<S, M>, id: Id, call: Call<S, M>, d: Id, x: Id)
    requires Ended(id, call).Some? ==> Ended(id, call).value.0 != d
    ensures EndNotices(Sent(s, id, call, x), d) == 0
  {
    var ended := Ended(id, call);
    if ended.Some? { NoticesFrom(SubscribersOf(s, ended.value.0), ended.value.1, x); }
    NoEndNotice(Sent(s, id, call, x), d);
  }

  /** The call that ends d sends one notice to its subscriber, and none to anybody else. */
  lemma EndSends<S, M>(s: Sys<S, M>, id: Id, call: Call<S, M>, d: Id, x: Id)
    requires Ended(id, call).Some? && Ended(id, call).value.0 == d && OneSubscriber(s)
    ensures EndNotices(Sent(s, id, call, x), d) == if SubscribersOf(s, d) == [x] then 1 else 0
  {
    var env := Ended(id, call).value.1;
    OneNotice(SubscribersOf(s, d), env, x);
    assert [env][1..] == [] && EndNotices([env][1..], d) == 0;
  }

  /** Over any run in which thread d ends, and is not forked again, exactly one notice of its end is sent to its
      subscriber, if it has one, and none to anybody else, however often it is killed again. */
  lemma {:induction false} EndSentOnce<S, M>(s: Sys<S, M>, calls: seq<Call<S, M>>, n: nat, d: Id, subs: seq<Id>, x: Id)
    requires Unique(s) && OneSubscriber(s) && FreshForks(s, calls) && EndsAfter(s, calls, n, d, subs)
    requires NeverForks(calls[n+1..], d)
    ensures EndNotices(AllSent(s, calls, x), d) == if subs == [x] then 1 else 0
    decreases n
  {
    hide Sent, Unique, Handle, OneSubscriber, Gone;
    var s', o, id := Step(s, calls[0]), Others(s), Current(s).id;
    var sent, rest := Sent(o, id, calls[0], x), AllSent(s', calls[1..], x);
    EndNoticesJoin(sent, rest, d);
    StepUnique(s, calls[0]);
    OthersLinks(s);
    if n == 0 {
      EndSends(o, id, calls[0], d, x);
      EndTold(s, calls[0], x);
      GoneSilent(s', calls[1..], d, x);
      NoEndNotice(rest, d);
    } else {
      OthersEnd(o, id, calls[0], d, x);
      StepOneSubscriber(s, calls[0]);
      assert calls[1..][n..] == calls[n+1..];
      EndSentOnce(s', calls[1..], n - 1, d, subs, x);
    }
  }

  lemma OthersLinks<S, M>(s: Sys<S, M>)
    requires !Halted(s)
    ensures Others(s).links == s.links && (OneSubscriber(s) ==> OneSubscriber(Others(s)))
  {
  }

  lemma {:induction false} PutNotices<S, M>(s: Sys<S, M>, calls: seq<Call<S, M>>, x: Id, d: Id)
    ensures EndNotices(AllPut(s, calls, x), d)
         == EndNotices(AllSent(s, calls, x), d) + EndNotices(AllBack(s, calls, x), d)
    decreases |calls|
  {
    hide Sent, Back, EndNotices, Handle;
    if calls == [] || Halted(s) {
      NoEndNotice<M>([], d);
    } else {
      var s', id := Step(s, calls[0]), Current(s).id;
      var sent, back := Sent(Others(s), id, calls[0], x), Back(id, calls[0], x);
      PutNotices(s', calls[1..], x, d);
      EndNoticesJoin(sent, back, d);
      EndNoticesJoin(sent + back, AllPut(s', calls[1..], x), d);
      EndNoticesJoin(sent, AllSent(s', calls[1..], x), d);
      EndNoticesJoin(back, AllBack(s', calls[1..], x), d);
    }
  }

  /** And so the subscriber hears of it exactly once, and once more each time that it puts the notice back: what it
      has been given and what is still pending for it hold one notice of the end of d, if there was none before,
      besides those it put back. */
  lemma EndHeardOnce<S, M>(s: Sys<S, M>, calls: seq<Call<S, M>>, n: nat, d: Id, x: Id)
    requires Unique(s) && OneSubscriber(s) && FreshForks(s, calls) && EndsAfter(s, calls, n, d, [x])
    requires NeverForks(calls[n+1..], d) && Alive(s, calls, x) && EndNotices(Pending(s, x), d) == 0
    ensures EndNotices(Got(s, calls, x), d) + EndNotices(Pending(Run(s, calls), x), d)
         == 1 + EndNotices(AllBack(s, calls, x), d)
  {
    hide Pending, Got, AllSent, AllBack, AllPut, Unique, Run;
    MailConserved(s, calls, x);
    EndSentOnce(s, calls, n, d, [x], x);
    PutNotices(s, calls, x, d);
    EndNoticesJoin(Got(s, calls, x), Pending(Run(s, calls), x), d);
    EndNoticesJoin(Pending(s, x), AllPut(s, calls, x), d);
  }
}
