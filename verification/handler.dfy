/**
 The inbound message handler of one context, as a state transition over the
 context's set of handled identifiers. A valid query is searched in the local
 record store, its matches presented, its identifier recorded and the same
 message forwarded to every neighbour; anything else is dropped and changes
 nothing.
 */
module Handler {
  import opened Options
  import opened Records
  import opened Matcher
  import opened Presenter
  import opened Envelope
  import opened FanOut

  /** What a context reads while it handles a query: its neighbours, its record store, its execution counts. */
  datatype Env = Env(ctx: Context, store: seq<Record>, counts: map<string, int>)

  /** The outcome of one delivery. */
  datatype Step =
    | Dropped
    | Processed(
        seen: set<int>,
        matches: seq<Record>,
        display: Option<Display>,
        forward: Message,
        targets: seq<Target>
      )

  /** The handled-identifier set after a step taken from `seen`. */
  function SeenAfter(seen: set<int>, st: Step): (seen': set<int>) {
    match st
    case Dropped => seen
    case Processed(seen', _, _, _, _) => seen'
  }

  /** The `message` listener installed by `initEvent`. */
  function HandleMessage(data: Option<Message>, seen: set<int>, env: Env): (st: Step)
    ensures st.Dropped? <==> !IsValidMessageEvent(data, seen)
    ensures st.Processed? ==>
      && st.seen == seen + {data.value.uid.n}
      && st.forward == data.value
      && st.matches == Search(env.store, data.value.fieldName, data.value.pattern)
      && st.display == PrintResult(st.matches, env.counts)
      && st.targets == CrossThreadSearch(env.ctx)
  {
    if !IsValidMessageEvent(data, seen) then Dropped
    else
      var msg := data.value;
      var results := Search(env.store, msg.fieldName, msg.pattern);
      Processed(seen + {msg.uid.n}, results, PrintResult(results, env.counts), msg, CrossThreadSearch(env.ctx))
  }

  /** The handled-identifier set only grows, and grows by the message's identifier alone. */
  lemma SeenOnlyGrows(data: Option<Message>, seen: set<int>, env: Env)
    ensures seen <= SeenAfter(seen, HandleMessage(data, seen, env))
    ensures SeenAfter(seen, HandleMessage(data, seen, env)) - seen <= (if data.Some? && data.value.uid.Number? then {data.value.uid.n} else {})
  {
  }

  /** A message that is not a well-formed query leaves the context untouched and is not forwarded. */
  lemma MalformedMessageDropped(data: Option<Message>, seen: set<int>, env: Env)
    requires data.None? || data.value.tag != MessageType || data.value.uid.NotNumber?
    ensures HandleMessage(data, seen, env) == Dropped
  {
  }

  /**
   Delivering a handled query again, with a nonzero identifier, is a no-op:
   the second delivery is dropped and the set stays as the first left it.
   */
  lemma RedeliveryIsNoOp(m: Message, seen: set<int>, env: Env, env': Env)
    requires m.tag == MessageType && m.uid.Number? && m.uid.n != 0 && m.uid.n !in seen
    ensures HandleMessage(Some(m), seen, env).Processed?
    ensures HandleMessage(Some(m), HandleMessage(Some(m), seen, env).seen, env') == Dropped
  {
  }

  /** An identifier of 0 is never deduplicated: the same query is processed on every delivery. */
  lemma ZeroUidReprocessed(m: Message, seen: set<int>, env: Env)
    requires m.tag == MessageType && m.uid == Number(0)
    ensures HandleMessage(Some(m), seen, env).Processed?
    ensures HandleMessage(Some(m), HandleMessage(Some(m), seen, env).seen, env).Processed?
  {
  }

  /** Where a freshly built query is posted. */
  datatype Launch =
    | SelfPost(st: Step)       // a context with a document posts to its own window and its own listener handles the query
    | OwnerPost(msg: Message)  // a worker posts to the `Worker` object its owner holds, which this listener does not watch

  /**
   An entry point (`searchByMsg`, `searchNameByMsg`): the query is built with
   `uid`, the send time in milliseconds, and posted. A context with a document
   posts it to itself, so its own handler takes it first; a worker has no
   window of its own and posts it to its owner instead.
   */
  function SearchFrom(uid: int, pattern: Pattern, fieldName: Option<string>, seen: set<int>, env: Env): (l: Launch)
    ensures l.SelfPost? <==> env.ctx.hasDocument
    ensures l.SelfPost? ==> (l.st.Processed? <==> uid == 0 || uid !in seen)
    ensures l.SelfPost? && l.st.Processed? ==>
      && l.st.matches == Search(env.store, ValueOr(fieldName, "value"), pattern)
      && uid in l.st.seen
      && l.st.forward.uid == Number(uid)
    ensures l.OwnerPost? ==>
      && l.msg.tag == MessageType && l.msg.uid == Number(uid)
      && l.msg.pattern == pattern && l.msg.fieldName == ValueOr(fieldName, "value")
  {
    var msg := SearchByMsg(uid, pattern, fieldName);
    if env.ctx.hasDocument then
      BuiltQueryValidity(uid, pattern, fieldName, seen);
      SelfPost(HandleMessage(Some(msg), seen, env))
    else OwnerPost(msg)
  }

  /**
   Two queries sent in the same millisecond share an identifier. From a
   context with a document, whatever its pattern and field, the second is
   taken for a duplicate of the first and dropped; from a worker, both reach
   the owner under the same identifier.
   */
  lemma SameMillisecondQueriesCollide(uid: int, p1: Pattern, f1: Option<string>, p2: Pattern, f2: Option<string>, seen: set<int>, env: Env)
    requires uid != 0 && uid !in seen
    ensures env.ctx.hasDocument ==>
      && SearchFrom(uid, p1, f1, seen, env).st.Processed?
      && SearchFrom(uid, p2, f2, SearchFrom(uid, p1, f1, seen, env).st.seen, env) == SelfPost(Dropped)
    ensures !env.ctx.hasDocument ==>
      SearchFrom(uid, p1, f1, seen, env).msg.uid == SearchFrom(uid, p2, f2, seen, env).msg.uid == Number(uid)
  {
  }
}
