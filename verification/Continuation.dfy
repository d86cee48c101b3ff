/** Requests that continue earlier ones: each key has an interpreter of its own and a buffer of the
    code fragments that did not yet make up a complete program.
 */
module Continuation {

  type Key = string

  /** Running code either completes with an output, or finds the code unfinished. */
  datatype Outcome<C> = Outcome(finished: bool, output: string, context: C)

  /** The interpreter behind a server.  The code run may ask for its context to be dropped. */
  datatype Interpreter<!C> = Interpreter(
    blank: C,
    fixup: C -> C,
    wantsReset: C -> bool,
    run: (string, C) -> Outcome<C>)

  const CONTINUE := "(continue...)"

  // ----- What a server keeps, as fragments -----

  datatype Entry<C> = Entry(context: C, fragments: seq<string>)
  datatype Request = Request(key: Key, code: string)

  /** What happened on a request: whether it began on a new context, the source submitted, whether that
      completed, and the reply. */
  datatype Event = Event(request: Request, isNew: bool, source: string, finished: bool, reply: string)

  type Contexts<C> = map<Key, Entry<C>>

  predicate StartsAnew<C>(it: Interpreter<C>, m: Contexts<C>, key: Key) {
    key !in m || it.wantsReset(m[key].context)
  }

  /** The entry a request starts from. */
  function Found<C>(it: Interpreter<C>, m: Contexts<C>, key: Key): Entry<C> {
    var e := if StartsAnew(it, m, key) then Entry(it.blank, []) else m[key];
    e.(context := it.fixup(e.context))
  }

  /** What running a fragment in an entry gives: the new entry, and whether the source was complete. */
  function Submit<C>(it: Interpreter<C>, join: seq<string> -> string, e: Entry<C>, code: string)
    : (Entry<C>, Outcome<C>)
  {
    var fragments := e.fragments + [code];
    var o := it.run(join(fragments), e.context);
    (Entry(o.context, if o.finished then [] else fragments), o)
  }

  function ReplyOf<C>(o: Outcome<C>): string {
    if o.finished then o.output else CONTINUE
  }

  function Handle<C>(it: Interpreter<C>, join: seq<string> -> string, m: Contexts<C>, r: Request)
    : (Contexts<C>, Event)
  {
    var e := Found(it, m, r.key);
    var (e', o) := Submit(it, join, e, r.code);
    (m[r.key := e'],
     Event(r, StartsAnew(it, m, r.key), join(e.fragments + [r.code]), o.finished, ReplyOf(o)))
  }

  lemma HandleIs<C>(it: Interpreter<C>, join: seq<string> -> string, m: Contexts<C>, r: Request)
    ensures var (e', o) := Submit(it, join, Found(it, m, r.key), r.code);
            Handle(it, join, m, r).0 == m[r.key := e'] && Handle(it, join, m, r).1.reply == ReplyOf(o)
  {
  }

  function Serve<C>(it: Interpreter<C>, join: seq<string> -> string, rs: seq<Request>): (Contexts<C>, seq<Event>) {
    if rs == [] then (map[], [])
    else
      var (m, log) := Serve(it, join, rs[..|rs| - 1]);
      var (m', e) := Handle(it, join, m, rs[|rs| - 1]);
      (m', log + [e])
  }

  function Concat(fragments: seq<string>): string {
    if fragments == [] then "" else Concat(fragments[..|fragments| - 1]) + fragments[|fragments| - 1]
  }

  lemma NothingToConcat()
    ensures Concat([]) == ""
  {
  }

  function JoinLines(fragments: seq<string>): string {
    if fragments == [] then ""
    else if |fragments| == 1 then fragments[0]
    else fragments[0] + "\n" + JoinLines(fragments[1..])
  }

  // ----- The JavaScript server -----

  /** A record per key, updated in place: the context and the text still waiting for its end. */
  class JsContext<C(!new)> {
    var context: C
    var buf: string

    constructor (context: C)
      ensures this.context == context && buf == ""
    {
      this.context, buf := context, "";
    }

    /** The record holds the entry `e`. */
    ghost predicate Holds(e: Entry<C>)
      reads this
    {
      context == e.context && buf == Concat(e.fragments)
    }

    method Run(it: Interpreter<C>, code: string, ghost e: Entry<C>) returns (reply: string)
      requires Holds(e)
      modifies this
      ensures Holds(Submit(it, Concat, e, code).0) && reply == ReplyOf(Submit(it, Concat, e, code).1)
    {
      var finished := true;
      buf := buf + code;
      ghost var fragments := e.fragments + [code];
      assert fragments[..|fragments| - 1] == e.fragments;
      var o := it.run(buf, context);
      context := o.context;
      if !o.finished { finished := false; }
      if finished { buf := ""; }
      reply := if finished then o.output else CONTINUE;
    }
  }

  lemma FoundIs<C>(it: Interpreter<C>, m: Contexts<C>, key: Key)
    ensures Found(it, m, key) ==
            if key !in m || it.wantsReset(m[key].context) then Entry(it.fixup(it.blank), [])
            else Entry(it.fixup(m[key].context), m[key].fragments)
  {
  }

  class JsServer<C(!new)> {
    var contexts: map<Key, JsContext<C>>
    ghost var model: Contexts<C>

    constructor ()
      ensures Valid() && model == map[] && fresh(Repr())
    {
      contexts, model := map[], map[];
    }

    ghost function Repr(): set<object>
      reads this
    {
      {this} + contexts.Values
    }

    /** The records hold what the model says, and no two keys share one. */
    ghost predicate Valid()
      reads this, contexts.Values
    {
      (forall k :: k in contexts <==> k in model) && Distinct() &&
      forall k | k in contexts :: contexts[k].Holds(model[k])
    }

    ghost predicate Distinct()
      reads this
    {
      forall k, l | k in contexts && l in contexts && contexts[k] == contexts[l] :: k == l
    }

    method Create(it: Interpreter<C>, key: Key) returns (ctx: JsContext<C>)
      requires Valid()
      modifies this
      ensures Valid() && fresh(ctx) && contexts == old(contexts)[key := ctx] &&
          model == old(model)[key := Entry(it.blank, [])]
    {
      hide Concat;
      NothingToConcat();
      ctx := new JsContext(it.blank);
      contexts, model := contexts[key := ctx], model[key := Entry(it.blank, [])];
    }

    method Fix(ctx: JsContext<C>, it: Interpreter<C>, key: Key)
      requires Valid() && key in contexts && contexts[key] == ctx
      modifies ctx, this`model
      ensures Valid()
      ensures var e := old(model)[key]; model == old(model)[key := e.(context := it.fixup(e.context))]
    {
      hide Concat;
      ctx.context := it.fixup(ctx.context);
      model := model[key := model[key].(context := it.fixup(model[key].context))];
    }

    method GetContext(it: Interpreter<C>, key: Key) returns (ctx: JsContext<C>)
      requires Valid()
      modifies Repr()
      ensures Valid() && fresh(Repr() - old(Repr())) && key in contexts && contexts[key] == ctx
      ensures model == old(model)[key := Found(it, old(model), key)]
    {
      hide Concat, Found, StartsAnew;
      ghost var before := model;
      FoundIs(it, model, key);
      if key !in contexts || it.wantsReset(contexts[key].context) {
        ctx := Create(it, key);
      } else {
        ctx := contexts[key];
      }
      Fix(ctx, it, key);
      Overwrites(before, key, Entry(it.blank, []), model[key]);
    }

    /** Running the code in the record found for its key. */
    method RunIn(ctx: JsContext<C>, it: Interpreter<C>, r: Request) returns (reply: string)
      requires Valid() && r.key in contexts && contexts[r.key] == ctx
      modifies ctx, this`model
      ensures Valid()
      ensures var s := Submit(it, Concat, old(model)[r.key], r.code);
              model == old(model)[r.key := s.0] && reply == ReplyOf(s.1)
    {
      hide Concat, Submit;
      ghost var e := model[r.key];
      reply := ctx.Run(it, r.code, e);
      assert forall k | k in contexts && k != r.key :: contexts[k] != ctx;
      model := model[r.key := Submit(it, Concat, e, r.code).0];
    }

    method HandleRequest(it: Interpreter<C>, r: Request) returns (reply: string)
      requires Valid()
      modifies Repr()
      ensures Valid() && fresh(Repr() - old(Repr()))
      ensures model == Handle(it, Concat, old(model), r).0 && reply == Handle(it, Concat, old(model), r).1.reply
    {
      hide Concat, Submit, Found, StartsAnew, Valid;
      ghost var before := model;
      var ctx := GetContext(it, r.key);
      reply := RunIn(ctx, it, r);
    }
  }

  // ----- The Python server -----

  /** An interpreter that is made once for each key and never dropped. */
  ghost predicate NeverDropped<C(!new)>(it: Interpreter<C>) {
    forall c :: !it.wantsReset(c) && it.fixup(c) == c
  }

  /** The two dictionaries together hold what the model says. */
  ghost predicate Agree<C(!new)>(codebufs: map<Key, seq<string>>, etors: map<Key, C>, m: Contexts<C>) {
    && (forall k :: k in codebufs <==> k in m)
    && (forall k :: k in etors <==> k in m)
    && forall k | k in m :: m[k] == Entry(etors[k], codebufs[k])
  }

  lemma FoundThere<C(!new)>(it: Interpreter<C>, codebufs: map<Key, seq<string>>, etors: map<Key, C>, m: Contexts<C>,
                            k: Key)
    requires Agree(codebufs, etors, m) && NeverDropped(it)
    ensures Found(it, m, k) ==
        Entry(if k in etors then etors[k] else it.blank, if k in codebufs then codebufs[k] else [])
  {
  }

  lemma AgreeAfter<C(!new)>(codebufs: map<Key, seq<string>>, etors: map<Key, C>, m: Contexts<C>, k: Key, e: Entry<C>)
    requires Agree(codebufs, etors, m)
    ensures Agree(codebufs[k := e.fragments], etors[k := e.context], m[k := e])
  {
  }

  function SetDefault<V>(m: map<Key, V>, k: Key, v: V): (r: map<Key, V>)
    ensures r == m[k := if k in m then m[k] else v]
  {
    if k in m then m else m[k := v]
  }

  class PyServer<C(!new)> {
    var codebufs: map<Key, seq<string>>
    var etors: map<Key, C>
    ghost var model: Contexts<C>

    constructor ()
      ensures Valid() && model == map[]
    {
      codebufs, etors, model := map[], map[], map[];
    }

    ghost predicate Valid()
      reads this
    {
      Agree(codebufs, etors, model)
    }

    method HandleInt(it: Interpreter<C>, r: Request) returns (reply: string)
      requires Valid() && NeverDropped(it)
      modifies this
      ensures Valid()
      ensures model == Handle(it, JoinLines, old(model), r).0 && reply == Handle(it, JoinLines, old(model), r).1.reply
    {
      hide JoinLines, Agree, Found, StartsAnew, NeverDropped, SetDefault, Handle;
      ghost var e, c, f := Found(it, model, r.key), old(codebufs), old(etors);
      FoundThere(it, codebufs, etors, model, r.key);
      codebufs := SetDefault(codebufs, r.key, []);
      etors := SetDefault(etors, r.key, it.blank);
      assert Entry(etors[r.key], codebufs[r.key]) == e;
      var codebuf := codebufs[r.key] + [r.code];
      codebufs := codebufs[r.key := codebuf];
      Overwrites(c, r.key, e.fragments, codebuf);
      var o := it.run(JoinLines(codebuf), etors[r.key]);
      etors := etors[r.key := o.context];
      Overwrites(f, r.key, e.context, o.context);
      if o.finished {
        codebufs := codebufs[r.key := []];
        Overwrites(c, r.key, codebuf, []);
      }
      reply := if o.finished then o.output else CONTINUE;
      HandleIs(it, JoinLines, model, r);
      AgreeAfter(c, f, model, r.key, Submit(it, JoinLines, e, r.code).0);
      model := model[r.key := Submit(it, JoinLines, e, r.code).0];
    }
  }

  lemma Overwrites<V>(m: map<Key, V>, k: Key, v: V, w: V)
    ensures m[k := v][k := w] == m[k := w]
  {
  }

  // ----- History -----

  /** The code a key has sent since its last request that completed, or that began on a new context. */
  function Pending(log: seq<Event>, key: Key): seq<string> {
    if log == [] then []
    else
      var e, before := log[|log| - 1], log[..|log| - 1];
      if e.request.key != key then Pending(before, key)
      else if e.finished then []
      else if e.isNew then [e.request.code]
      else Pending(before, key) + [e.request.code]
  }

  /** The source submitted for request `i` is that key's pending code, joined, and this request's. */
  predicate SourceIsHistory(join: seq<string> -> string, log: seq<Event>, i: nat)
    requires i < |log|
  {
    var e := log[i];
    e.source == join((if e.isNew then [] else Pending(log[..i], e.request.key)) + [e.request.code])
  }

  /** Buffers refine the history, over any interleaving of keys. */
  lemma {:induction false} BuffersAreHistory<C>(it: Interpreter<C>, join: seq<string> -> string, rs: seq<Request>,
                                                key: Key)
    ensures var (m, log) := Serve(it, join, rs);
            && |log| == |rs|
            && (if key in m then m[key].fragments == Pending(log, key) else Pending(log, key) == [])
  {
    if rs != [] {
      var n := |rs| - 1;
      BuffersAreHistory(it, join, rs[..n], key);
      var (m, log) := Serve(it, join, rs[..n]);
      var e := Handle(it, join, m, rs[n]).1;
      assert (log + [e])[..n] == log;
    }
  }

  lemma {:induction false} SourcesAreHistory<C>(it: Interpreter<C>, join: seq<string> -> string, rs: seq<Request>,
                                                i: nat)
    requires i < |rs|
    ensures var log := Serve(it, join, rs).1;
            |log| == |rs| && log[i].request == rs[i] && SourceIsHistory(join, log, i)
  {
    hide Handle, Pending, SourceIsHistory;
    var n := |rs| - 1;
    BuffersAreHistory(it, join, rs[..n], rs[n].key);
    var (m, log) := Serve(it, join, rs[..n]);
    SubmitsHistory(it, join, m, log, rs[n]);
    if i < n {
      SourcesAreHistory(it, join, rs[..n], i);
      HistoryStands(join, log, Handle(it, join, m, rs[n]).1, i);
    }
  }

  lemma HistoryStands(join: seq<string> -> string, log: seq<Event>, e: Event, i: nat)
    requires i < |log| && SourceIsHistory(join, log, i)
    ensures SourceIsHistory(join, log + [e], i)
  {
    assert (log + [e])[..i] == log[..i];
  }

  lemma SubmitsHistory<C>(it: Interpreter<C>, join: seq<string> -> string, m: Contexts<C>, log: seq<Event>, r: Request)
    requires if r.key in m then m[r.key].fragments == Pending(log, r.key) else Pending(log, r.key) == []
    ensures var e := Handle(it, join, m, r).1; e.request == r && SourceIsHistory(join, log + [e], |log|)
  {
    hide Pending;
    var e := Handle(it, join, m, r).1;
    assert (log + [e])[..|log|] == log;
  }

  // ----- Replies -----

  ghost predicate HasAsked(log: seq<Event>, key: Key) {
    exists i :: 0 <= i < |log| && log[i].request.key == key
  }

  /** The context that a key's own runs have left, one after another since it was last made. */
  function ContextOf<C>(it: Interpreter<C>, log: seq<Event>, key: Key): C {
    if log == [] then it.blank
    else
      var e, before := log[|log| - 1], log[..|log| - 1];
      if e.request.key != key then ContextOf(it, before, key)
      else it.run(e.source, it.fixup(if e.isNew then it.blank else ContextOf(it, before, key))).context
  }

  /** Request `i` is answered by running that key's pending code and its own in the context that the key has: with
      the output if the run completes, and else with a fixed text. */
  ghost predicate ReplyIsHistory<C>(it: Interpreter<C>, join: seq<string> -> string, log: seq<Event>, i: nat)
    requires i < |log|
  {
    var e, before := log[i], log[..i];
    var key := e.request.key;
    var left := ContextOf(it, before, key);
    var source := join((if e.isNew then [] else Pending(before, key)) + [e.request.code]);
    var o := it.run(source, it.fixup(if e.isNew then it.blank else left));
    && (e.isNew <==> !HasAsked(before, key) || it.wantsReset(left))
    && e.finished == o.finished
    && e.reply == if o.finished then o.output else "(continue...)"
  }

  lemma {:induction false} ContextsAreHistory<C>(it: Interpreter<C>, join: seq<string> -> string, rs: seq<Request>,
                                                 key: Key)
    ensures var (m, log) := Serve(it, join, rs);
            && (key in m <==> HasAsked(log, key))
            && ContextOf(it, log, key) == if key in m then m[key].context else it.blank
  {
    if rs != [] {
      var n := |rs| - 1;
      ContextsAreHistory(it, join, rs[..n], key);
      var (m, log) := Serve(it, join, rs[..n]);
      var e := Handle(it, join, m, rs[n]).1;
      assert (log + [e])[..|log|] == log && (log + [e])[|log|] == e;
      assert HasAsked(log + [e], key) <==> HasAsked(log, key) || e.request.key == key by {
        if HasAsked(log, key) {
          var i :| 0 <= i < |log| && log[i].request.key == key;
          assert (log + [e])[i].request.key == key;
        }
      }
    }
  }

  /** Over any interleaving of keys, every reply is what its key's own history says. */
  lemma {:induction false} RepliesAreHistory<C>(it: Interpreter<C>, join: seq<string> -> string, rs: seq<Request>,
                                                i: nat)
    requires i < |rs|
    ensures var log := Serve(it, join, rs).1;
            |log| == |rs| && log[i].request == rs[i] && ReplyIsHistory(it, join, log, i)
  {
    hide Handle, ReplyIsHistory;
    var n := |rs| - 1;
    BuffersAreHistory(it, join, rs[..n], rs[n].key);
    ContextsAreHistory(it, join, rs[..n], rs[n].key);
    var (m, log) := Serve(it, join, rs[..n]);
    AnswersHistory(it, join, m, log, rs[n]);
    if i < n {
      RepliesAreHistory(it, join, rs[..n], i);
      ReplyStands(it, join, log, Handle(it, join, m, rs[n]).1, i);
    }
  }

  lemma ReplyStands<C>(it: Interpreter<C>, join: seq<string> -> string, log: seq<Event>, e: Event, i: nat)
    requires i < |log| && ReplyIsHistory(it, join, log, i)
    ensures ReplyIsHistory(it, join, log + [e], i)
  {
    assert (log + [e])[..i] == log[..i];
  }

  lemma AnswersHistory<C>(it: Interpreter<C>, join: seq<string> -> string, m: Contexts<C>, log: seq<Event>, r: Request)
    requires if r.key in m then m[r.key].fragments == Pending(log, r.key) else Pending(log, r.key) == []
    requires r.key in m <==> HasAsked(log, r.key)
    requires ContextOf(it, log, r.key) == if r.key in m then m[r.key].context else it.blank
    ensures var e := Handle(it, join, m, r).1; e.request == r && ReplyIsHistory(it, join, log + [e], |log|)
  {
    hide Pending, ContextOf, HasAsked;
    var e := Handle(it, join, m, r).1;
    assert (log + [e])[..|log|] == log && [] + [r.code] == [r.code];
  }

  /** Plain concatenation: pieces of code are put together with nothing between them. */
  lemma {:induction false} ConcatIs(a: seq<string>, b: seq<string>, x: string)
    ensures Concat([]) == "" && Concat([x]) == x && Concat(a + b) == Concat(a) + Concat(b)
  {
    assert [x][..0] == [] && Concat([x][..0]) == "" && "" + x == x;
    if b == [] {
      assert a + b == a && Concat(a) + "" == Concat(a);
    } else {
      var n := |b| - 1;
      assert (a + b)[..|a + b| - 1] == a + b[..n];
      ConcatIs(a, b[..n], x);
    }
  }

  /** Lines: one line feed between neighbours. */
  lemma {:induction false} JoinLinesIs(a: seq<string>, b: seq<string>, x: string)
    ensures JoinLines([]) == "" && JoinLines([x]) == x
    ensures a != [] && b != [] ==> JoinLines(a + b) == JoinLines(a) + "\n" + JoinLines(b)
  {
    if a != [] && b != [] {
      if |a| == 1 {
        assert a == [a[0]] && (a + b)[1..] == b;
      } else {
        assert (a + b)[1..] == a[1..] + b;
        JoinLinesIs(a[1..], b, x);
      }
    }
  }

  // ----- Keys do not see each other -----

  function Only(rs: seq<Request>, key: Key): seq<Request> {
    if rs == [] then []
    else
      var r := rs[|rs| - 1];
      Only(rs[..|rs| - 1], key) + if r.key == key then [r] else []
  }

  function EventsOf(log: seq<Event>, key: Key): seq<Event> {
    if log == [] then []
    else
      var e := log[|log| - 1];
      EventsOf(log[..|log| - 1], key) + if e.request.key == key then [e] else []
  }

  ghost predicate SameFor<C>(m: Contexts<C>, m': Contexts<C>, key: Key) {
    (key in m <==> key in m') && (key in m ==> m[key] == m'[key])
  }

  /** A key gets the replies, and keeps the context and the buffer, that it would have with the server to
      itself. */
  lemma {:induction false} KeysAreIsolated<C>(it: Interpreter<C>, join: seq<string> -> string, rs: seq<Request>,
                                              key: Key)
    ensures var (m, log) := Serve(it, join, rs);
            var (m', log') := Serve(it, join, Only(rs, key));
            SameFor(m, m', key) && EventsOf(log, key) == log'
  {
    if rs != [] {
      var n := |rs| - 1;
      KeysAreIsolated(it, join, rs[..n], key);
      var (m, log) := Serve(it, join, rs[..n]);
      var e := Handle(it, join, m, rs[n]).1;
      assert (log + [e])[..|log|] == log;
      if rs[n].key == key {
        var own := Only(rs[..n], key);
        assert (own + [rs[n]])[..|own|] == own;
      } else {
        assert Only(rs, key) == Only(rs[..n], key);
      }
    }
  }
}
