/** The matcher as a reference definition: one function per loop of
    `Engine::analizeAllPlugins` (src/engine.cpp 409-786), `Engine::analizePlugin`
    (788-1178) and `Engine::analize` (394-407), over the state the engine mutates. */
module Matcher {
  import opened Strings
  import opened Grammar
  import opened Substitution
  import opened Events
  import opened Commands
  import opened Matching
  import opened Props

  // ---------------------------------------------------------------------------
  // State

  /** The follow-up context `nextReplyPluginName` / `nextReplyNeedId` /
      `nextReplyItemId`. */
  datatype Context = Context(pluginName: string, needId: string, itemId: string)

  const NoContext: Context := Context("", "", "")

  /** Everything the matcher reads and changes: the context, the capture vector
      `var`, the suggestion lists, the stored settings, how many random draws were
      consumed, and the signals emitted so far. */
  datatype State = State(ctx: Context, vars: seq<string>, props: ValidProps, userName: string,
                         propEnabled: bool, draws: nat, events: seq<Event>)

  /** What the matcher reads but never changes: the registered extensions in load
      order, the lowering used by QVariant's bool conversion, the random source
      (the pool index of draw number n is `draw(n)` modulo the pool size) and the
      clock of this message. */
  datatype Env = Env(plugins: seq<Plugin>, lower: char -> char, draw: nat -> nat, clock: Clock)

  /** A pass in progress: the state and the two flags of the source's loops. */
  datatype Run = Run(st: State, isOk: bool, isRep: bool)

  function ValuesOf(env: Env, st: State): Values
  {
    Values(st.vars, st.userName, st.propEnabled, env.clock)
  }

  /** `b` only appended to `a`'s log, sent no answer and kept the capture vector. */
  predicate Quiet(a: State, b: State)
  {
    a.events <= b.events && Answers(b.events) == Answers(a.events) && b.vars == a.vars
  }

  /** A pass step only appends to the log, and `isRep` is set exactly when it was
      already set or an answer was sent. */
  predicate Tracks(a: Run, b: Run)
  {
    && a.st.events <= b.st.events
    && Answers(a.st.events) <= Answers(b.st.events)
    && (b.isRep <==> a.isRep || Answers(b.st.events) > Answers(a.st.events))
  }

  lemma TracksTrans(a: Run, b: Run, c: Run)
    requires Tracks(a, b) && Tracks(b, c)
    ensures Tracks(a, c)
  {
  }

  /** A context is either none or the one a global reply opened: the extension's
      identifier and an item's non-empty `needId` and `id`. */
  predicate CtxFrom(env: Env, ctx: Context)
  {
    ctx == NoContext ||
    exists p, k :: 0 <= p < |env.plugins| && 0 <= k < |env.plugins[p].doc| && Opened(env.plugins[p], env.plugins[p].doc[k]) == ctx
  }

  /** The context a reply from `item` of `plugin` opens, when it has both ids. */
  function Opened(plugin: Plugin, item: Item): Context
  {
    if item.id != "" && item.needId != "" then Context(plugin.iid, item.needId, item.id) else NoContext
  }

  /** In a global pass the context is one a reply opened, and only a reply opens it. */
  predicate RunCtxOk(env: Env, run: Run)
  {
    CtxFrom(env, run.st.ctx) && (run.st.ctx != NoContext ==> run.isRep)
  }

  lemma QuietTracks(a: Run, b: Run)
    requires Quiet(a.st, b.st) && b.isRep == a.isRep
    ensures Tracks(a, b)
  {
  }

  // ---------------------------------------------------------------------------
  // Suggestion lists and settings, at the level of the state

  lemma UpdateQuiet(u: Update)
    requires u == AddBaseProp(u.props) || u.events == []
    ensures forall k :: 0 <= k < |u.events| ==> !IsAnswer(u.events[k])
  {
  }

  /** Take over the lists and the signals of a suggestion-list update. */
  function Adopt(st: State, u: Update): (r: State)
    requires Valid(u.props)
    requires forall k :: 0 <= k < |u.events| ==> !IsAnswer(u.events[k])
    ensures Quiet(st, r)
  {
    QuietAppend(st.events, u.events);
    st.(props := u.props, events := st.events + u.events)
  }

  /** `addBaseProp` on the state. */
  function BaseState(st: State): (r: State)
    ensures Quiet(st, r)
  {
    var u := AddBaseProp(st.props);
    UpdateQuiet(u);
    Adopt(st, u)
  }

  /** `addBaseProp` in closed form: `main_prop` is shown, after a clearing signal, one
      signal per entry. */
  lemma BaseStateIs(st: State)
    ensures BaseState(st) == st.(props := st.props.(shown := st.props.mainProp), events := st.events + ([RemoveAllProps] + AddEvents(st.props.mainProp)))
  {
  }

  /** The restore at the start of a global pass and on a "null" follow-up. */
  function RestoreState(st: State): (r: State)
    ensures Quiet(st, r)
  {
    var u := Restore(st.props);
    UpdateQuiet(u);
    Adopt(st, u)
  }

  /** The push is `addBaseProp` over the pushed lists. */
  lemma PushIsBase(st: State, texts: seq<string>)
    ensures PushState(st, texts) == BaseState(st.(props := st.props.(volatileProp := st.props.mainProp, mainProp := texts, prop := st.props.prop + texts, removeCount := |texts|)))
  {
  }

  /** A restore with a saved list is `addBaseProp` over the restored lists. */
  lemma RestoreIsBase(st: State)
    requires st.props.volatileProp != []
    ensures RestoreState(st) == BaseState(st.(props := st.props.(mainProp := st.props.volatileProp, volatileProp := [], prop := st.props.prop[..|st.props.prop| - st.props.removeCount], removeCount := 0)))
  {
  }

  /** A Prop block's push. */
  function PushState(st: State, texts: seq<string>): (r: State)
    ensures Quiet(st, r)
  {
    var u := Push(st.props, texts);
    UpdateQuiet(u);
    Adopt(st, u)
  }

  /** One action: its decisions, then its effect on the settings and the log. */
  function Perform(env: Env, st: State, cmd: seq<string>, withApp: bool, iid: string): (r: State)
    requires Dispatchable(cmd, withApp)
    ensures Quiet(st, r)
  {
    var e := Dispatch(env.lower, cmd, withApp, iid, ValuesOf(env, st));
    QuietAppend(st.events, e.events);
    st.(userName := e.userName, propEnabled := e.propEnabled, events := st.events + e.events)
  }

  // ---------------------------------------------------------------------------
  // Replies

  /** One reply drawn from a pool, substituted with the current values. */
  function Emit(env: Env, st: State, pool: seq<string>, isFin: bool): (r: State)
    requires pool != []
    ensures st.events <= r.events && Answers(r.events) == Answers(st.events) + 1
  {
    var pick := pool[env.draw(st.draws) % |pool|];
    var e := Event.Reply(Substitute(pick, ValuesOf(env, st)), isFin, "message", [], []);
    AnswerAppend(st.events, e);
    st.(draws := st.draws + 1, events := st.events + [e])
  }

  /** Exactly one reply is sent, drawn from the pool and substituted, and the draw is
      consumed; nothing else changes. */
  lemma EmitOneOfPool(env: Env, st: State, pool: seq<string>, isFin: bool)
    requires pool != []
    ensures exists k :: 0 <= k < |pool| && Emit(env, st, pool, isFin).events == st.events + [Event.Reply(Substitute(pool[k], ValuesOf(env, st)), isFin, "message", [], [])]
    ensures Emit(env, st, pool, isFin) == st.(draws := st.draws + 1, events := Emit(env, st, pool, isFin).events)
  {
    var k := env.draw(st.draws) % |pool|;
    assert Emit(env, st, pool, isFin).events == st.events + [Event.Reply(Substitute(pool[k], ValuesOf(env, st)), isFin, "message", [], [])];
  }

  /** Where a reply's rule sits: item k of extension p in a global pass, or a
      follow-up sub-item with the given `needId`. */
  datatype Origin = Global(p: nat, k: nat) | Scoped(needId: string)

  predicate OriginOk(env: Env, o: Origin)
  {
    o.Global? ==> o.p < |env.plugins| && o.k < |env.plugins[o.p].doc|
  }

  /** The context change after a reply. Globally, an item with both an `id` and a
      `needId` opens a follow-up; in a follow-up a sub-item's non-empty `needId`
      replaces the expected one, and "null" closes the dialogue and restores the
      suggestion lists. */
  function FollowUp(env: Env, st: State, o: Origin): (r: State)
    requires OriginOk(env, o)
    ensures Quiet(st, r)
  {
    match o
    case Global(p, k) =>
      var item := env.plugins[p].doc[k];
      if item.id != "" && item.needId != "" then st.(ctx := Opened(env.plugins[p], item)) else st
    case Scoped(needId) =>
      var s := if needId != "" then st.(ctx := st.ctx.(needId := needId)) else st;
      if needId == "null" then RestoreState(s.(ctx := NoContext)) else s
  }

  /** A reply sent: drawn, followed up, and `isRep` set. */
  function Answer(env: Env, run: Run, pool: seq<string>, isFin: bool, o: Origin): (r: Run)
    requires pool != [] && OriginOk(env, o)
    ensures Tracks(run, r) && r.isRep && r.isOk == run.isOk
    ensures Answers(r.st.events) == Answers(run.st.events) + 1
    ensures ValuesOf(env, r.st) == ValuesOf(env, run.st)
    ensures o.Global? && CtxFrom(env, run.st.ctx) ==> CtxFrom(env, r.st.ctx)
    ensures o.Global? ==> (var ctx := Opened(env.plugins[o.p], env.plugins[o.p].doc[o.k]);
      r.st.ctx == if ctx != NoContext then ctx else run.st.ctx)
    ensures o.Scoped? && o.needId == "null" ==> r.st.ctx == NoContext
    ensures o.Scoped? && o.needId != "" && o.needId != "null" ==> r.st.ctx == run.st.ctx.(needId := o.needId)
    ensures o.Scoped? && o.needId == "" ==> r.st.ctx == run.st.ctx
  {
    Run(FollowUp(env, Emit(env, run.st, pool, isFin), o), run.isOk, true)
  }

  /** The entries a Reply block can reach without indexing an empty pool. */
  predicate EntryReplyOk(e: Entry)
  {
    (e.Condition? && e.ifAttr != "" ==> e.children != []) && (e.Else? ==> e.children != [])
  }

  predicate ReplyOk(entries: seq<Entry>)
  {
    forall k :: 0 <= k < |entries| ==> EntryReplyOk(entries[k])
  }

  /** A position of a Reply or Actions walk after one child: the run (or state) so
      far and the last condition's verdict. */
  datatype ReplyWalk = ReplyWalk(run: Run, result: bool)

  /** A condition with a non-empty `if`: the only child that sets the verdict. */
  predicate Decides(e: Entry)
  {
    e.Condition? && e.ifAttr != ""
  }

  /** The position of the last deciding condition among `entries`, or -1. */
  function LastDecider(entries: seq<Entry>): (m: int)
    ensures -1 <= m < |entries|
    ensures m >= 0 ==> Decides(entries[m])
    decreases |entries|
  {
    if entries == [] then -1
    else if Decides(entries[|entries| - 1]) then |entries| - 1
    else LastDecider(entries[..|entries| - 1])
  }

  /** No deciding condition comes after the last one. */
  lemma {:induction false} LastDeciderLast(entries: seq<Entry>)
    ensures forall k :: LastDecider(entries) < k < |entries| ==> !Decides(entries[k])
    decreases |entries|
  {
    if entries != [] && !Decides(entries[|entries| - 1]) {
      var front := entries[..|entries| - 1];
      LastDeciderLast(front);
      assert forall k :: 0 <= k < |front| ==> front[k] == entries[k];
    }
  }

  lemma LastDeciderStep(entries: seq<Entry>, j: nat)
    requires 0 < j <= |entries|
    ensures LastDecider(entries[..j]) == if Decides(entries[j - 1]) then j - 1 else LastDecider(entries[..j - 1])
  {
    assert entries[..j][..j - 1] == entries[..j - 1];
    assert entries[..j][j - 1] == entries[j - 1];
  }

  /** The walk over the first j children of a block: `step` applied to each child
      in turn, starting from w0. */
  function WalkPrefix<W>(w0: W, entries: seq<Entry>, j: nat, step: (W, Entry) -> W): W
    requires j <= |entries|
    decreases j
  {
    if j == 0 then w0 else step(WalkPrefix(w0, entries, j - 1, step), entries[j - 1])
  }

  /** A loop that runs `step` one child at a time first walks j children and then
      goes on from child j. */
  lemma {:induction false} WalkThenLoop<W, R>(w0: W, entries: seq<Entry>, j: nat, step: (W, Entry) -> W, loop: (W, nat) -> R)
    requires j <= |entries|
    requires forall w, k {:trigger step(w, entries[k])} :: 0 <= k < j ==> loop(w, k) == loop(step(w, entries[k]), k + 1)
    ensures loop(w0, 0) == loop(WalkPrefix(w0, entries, j, step), j)
    decreases j
  {
    if j > 0 {
      WalkThenLoop(w0, entries, j - 1, step, loop);
    }
  }

  /** How a walk treats the verdict over its first j children: a deciding condition
      sets it to its value in the walk's current state, every other child keeps it. */
  ghost predicate VerdictRule<W(!new)>(entries: seq<Entry>, j: nat, step: (W, Entry) -> W, verdict: W -> bool, vals: W -> Values)
  {
    && j <= |entries|
    && forall w, k {:trigger step(w, entries[k])} :: 0 <= k < j ==>
         verdict(step(w, entries[k])) == if Decides(entries[k]) then ConditionHolds(entries[k].ifAttr, vals(w)) else verdict(w)
  }

  /** Children that do not decide keep the verdict. */
  lemma {:induction false} WalkKept<W(!new)>(w0: W, entries: seq<Entry>, d: nat, j: nat, step: (W, Entry) -> W, verdict: W -> bool, vals: W -> Values)
    requires d <= j && VerdictRule(entries, j, step, verdict, vals)
    requires forall k :: d <= k < j ==> !Decides(entries[k])
    ensures verdict(WalkPrefix(w0, entries, j, step)) == verdict(WalkPrefix(w0, entries, d, step))
    decreases j
  {
    if j > d {
      assert VerdictRule(entries, j - 1, step, verdict, vals);
      WalkKept(w0, entries, d, j - 1, step, verdict, vals);
    }
  }

  /** A verdict that starts false and follows the rule is, after j children, the
      value of the last deciding condition in the state the walk had reached there,
      or false when no child decided. */
  lemma WalkVerdict<W(!new)>(w0: W, entries: seq<Entry>, j: nat, step: (W, Entry) -> W, verdict: W -> bool, vals: W -> Values)
    requires VerdictRule(entries, j, step, verdict, vals) && !verdict(w0)
    ensures var m := LastDecider(entries[..j]);
      verdict(WalkPrefix(w0, entries, j, step)) == (m >= 0 && ConditionHolds(entries[m].ifAttr, vals(WalkPrefix(w0, entries, m, step))))
  {
    var m := LastDecider(entries[..j]);
    LastDeciderLast(entries[..j]);
    assert forall k :: m < k < j ==> entries[..j][k] == entries[k];
    if m >= 0 {
      assert entries[..j][m] == entries[m];
      WalkKept(w0, entries, m + 1, j, step, verdict, vals);
    } else {
      WalkKept(w0, entries, 0, j, step, verdict, vals);
    }
  }

  /** One child of a Reply block other than a `rep`: a condition with a non-empty
      `if` answers from its children when it holds and becomes the last verdict; an
      `else` answers from its children when the last verdict is false; anything else
      is skipped. */
  function ReplyEntry(env: Env, run: Run, o: Origin, e: Entry, result: bool, isFin: bool): (w: ReplyWalk)
    requires OriginOk(env, o) && EntryReplyOk(e) && !e.Rep?
    ensures Tracks(run, w.run) && w.run.isOk == run.isOk && w.run.st.vars == run.st.vars
    ensures ValuesOf(env, w.run.st) == ValuesOf(env, run.st)
    ensures o.Global? && RunCtxOk(env, run) ==> RunCtxOk(env, w.run)
    ensures Decides(e) ==> w.result == ConditionHolds(e.ifAttr, ValuesOf(env, run.st))
    ensures Decides(e) ==> (Answers(w.run.st.events) > Answers(run.st.events) <==> w.result)
    ensures e.Else? ==> w.result == result && (Answers(w.run.st.events) > Answers(run.st.events) <==> !result)
    ensures !Decides(e) && !e.Else? ==> w == ReplyWalk(run, result)
  {
    match e
    case Condition(c, _, children) =>
      if c == "" then ReplyWalk(run, result)
      else
        var holds := ConditionHolds(c, ValuesOf(env, run.st));
        ReplyWalk(if holds then Answer(env, run, children, isFin, o) else run, holds)
    case Else(_, children) =>
      ReplyWalk(if !result then Answer(env, run, children, isFin, o) else run, result)
    case _ => ReplyWalk(run, result)
  }

  /** The walk over a Reply block's children from entry i, `result` starting false.
      A `rep` makes itself and every later sibling one pool, answers from it and ends
      the walk. */
  function ReplyLoop(env: Env, run: Run, o: Origin, entries: seq<Entry>, i: nat, result: bool, isFin: bool): Run
    requires OriginOk(env, o) && ReplyOk(entries)
    decreases |entries| - i
  {
    if i >= |entries| then run
    else if entries[i].Rep? then Answer(env, run, Texts(entries[i..]), isFin, o)
    else
      assert EntryReplyOk(entries[i]);
      var w := ReplyEntry(env, run, o, entries[i], result, isFin);
      ReplyLoop(env, w.run, o, entries, i + 1, w.result, isFin)
  }

  lemma {:induction false} ReplyLoopTracks(env: Env, run: Run, o: Origin, entries: seq<Entry>, i: nat, result: bool, isFin: bool)
    requires OriginOk(env, o) && ReplyOk(entries)
    ensures Tracks(run, ReplyLoop(env, run, o, entries, i, result, isFin))
    ensures ReplyLoop(env, run, o, entries, i, result, isFin).isOk == run.isOk
    ensures ReplyLoop(env, run, o, entries, i, result, isFin).st.vars == run.st.vars
    ensures o.Global? && RunCtxOk(env, run) ==> RunCtxOk(env, ReplyLoop(env, run, o, entries, i, result, isFin))
    decreases |entries| - i
  {
    if i < |entries| && !entries[i].Rep? {
      assert EntryReplyOk(entries[i]);
      var w := ReplyEntry(env, run, o, entries[i], result, isFin);
      ReplyLoopTracks(env, w.run, o, entries, i + 1, w.result, isFin);
      TracksTrans(run, w.run, ReplyLoop(env, w.run, o, entries, i + 1, w.result, isFin));
    }
  }

  /** One child of a Reply block other than a `rep` as a step of the walk. */
  function ReplyStep(env: Env, o: Origin, isFin: bool): (ReplyWalk, Entry) -> ReplyWalk
  {
    (w: ReplyWalk, e: Entry) => if OriginOk(env, o) && EntryReplyOk(e) && !e.Rep? then ReplyEntry(env, w.run, o, e, w.result, isFin) else w
  }

  function ReplyResult(w: ReplyWalk): bool
  {
    w.result
  }

  /** What a condition reads at a position of a Reply walk. */
  function ReplyValues(env: Env): ReplyWalk -> Values
  {
    (w: ReplyWalk) => ValuesOf(env, w.run.st)
  }

  /** The walk over the first j children of a Reply block, none of them a `rep`,
      with the verdict starting false. */
  function ReplyPrefix(env: Env, run: Run, o: Origin, entries: seq<Entry>, j: nat, isFin: bool): ReplyWalk
    requires OriginOk(env, o) && ReplyOk(entries) && j <= |entries|
    requires forall k :: 0 <= k < j ==> !entries[k].Rep?
  {
    WalkPrefix(ReplyWalk(run, false), entries, j, ReplyStep(env, o, isFin))
  }

  /** The rest of a Reply walk from a position, as a function of that position. */
  function ReplyRest(env: Env, o: Origin, entries: seq<Entry>, isFin: bool): (ReplyWalk, nat) -> Run
  {
    (w: ReplyWalk, i: nat) => if OriginOk(env, o) && ReplyOk(entries) then ReplyLoop(env, w.run, o, entries, i, w.result, isFin) else w.run
  }

  /** Each of the first j children is one step of the walk and one step of the
      rest of it. */
  lemma ReplyRestSteps(env: Env, o: Origin, entries: seq<Entry>, j: nat, isFin: bool)
    requires OriginOk(env, o) && ReplyOk(entries) && j <= |entries|
    requires forall k :: 0 <= k < j ==> !entries[k].Rep?
    ensures forall w: ReplyWalk, k :: 0 <= k < j ==> ReplyRest(env, o, entries, isFin)(w, k) == ReplyRest(env, o, entries, isFin)(ReplyStep(env, o, isFin)(w, entries[k]), k + 1)
  {
    forall w: ReplyWalk, k | 0 <= k < j
      ensures ReplyRest(env, o, entries, isFin)(w, k) == ReplyRest(env, o, entries, isFin)(ReplyStep(env, o, isFin)(w, entries[k]), k + 1)
    {
      assert EntryReplyOk(entries[k]);
    }
  }

  /** The Reply walk is its first j steps followed by the walk from child j. */
  lemma ReplyLoopPrefix(env: Env, run: Run, o: Origin, entries: seq<Entry>, j: nat, isFin: bool)
    requires OriginOk(env, o) && ReplyOk(entries) && j <= |entries|
    requires forall k :: 0 <= k < j ==> !entries[k].Rep?
    ensures var w := ReplyPrefix(env, run, o, entries, j, isFin);
      ReplyLoop(env, run, o, entries, 0, false, isFin) == ReplyLoop(env, w.run, o, entries, j, w.result, isFin)
  {
    ReplyRestSteps(env, o, entries, j, isFin);
    WalkThenLoop(ReplyWalk(run, false), entries, j, ReplyStep(env, o, isFin), ReplyRest(env, o, entries, isFin));
  }

  /** A Reply walk never changes what a condition reads. */
  lemma {:induction false} ReplyPrefixValues(env: Env, run: Run, o: Origin, entries: seq<Entry>, j: nat, isFin: bool)
    requires OriginOk(env, o) && ReplyOk(entries) && j <= |entries|
    requires forall k :: 0 <= k < j ==> !entries[k].Rep?
    ensures ValuesOf(env, ReplyPrefix(env, run, o, entries, j, isFin).run.st) == ValuesOf(env, run.st)
    decreases j
  {
    if j > 0 {
      ReplyPrefixValues(env, run, o, entries, j - 1, isFin);
      assert EntryReplyOk(entries[j - 1]);
    }
  }

  /** A Reply walk follows the verdict rule. */
  lemma ReplyFollowsRule(env: Env, o: Origin, entries: seq<Entry>, j: nat, isFin: bool)
    requires OriginOk(env, o) && ReplyOk(entries) && j <= |entries|
    requires forall k :: 0 <= k < j ==> !entries[k].Rep?
    ensures VerdictRule(entries, j, ReplyStep(env, o, isFin), ReplyResult, ReplyValues(env))
  {
    var step := ReplyStep(env, o, isFin);
    var verdict: ReplyWalk -> bool := ReplyResult;
    var vals := ReplyValues(env);
    forall w: ReplyWalk, k | 0 <= k < j
      ensures verdict(step(w, entries[k])) == if Decides(entries[k]) then ConditionHolds(entries[k].ifAttr, vals(w)) else verdict(w)
    {
      assert EntryReplyOk(entries[k]);
    }
  }

  /** The verdict after the first j children of a Reply block: false when no
      condition with a non-empty `if` came before, and otherwise the value of the
      last such condition. Neither an `else` nor an empty `if` resets it. */
  lemma ReplyVerdict(env: Env, run: Run, o: Origin, entries: seq<Entry>, j: nat, isFin: bool)
    requires OriginOk(env, o) && ReplyOk(entries) && j <= |entries|
    requires forall k :: 0 <= k < j ==> !entries[k].Rep?
    ensures var m := LastDecider(entries[..j]);
      ReplyPrefix(env, run, o, entries, j, isFin).result == (m >= 0 && ConditionHolds(entries[m].ifAttr, ValuesOf(env, run.st)))
  {
    ReplyFollowsRule(env, o, entries, j, isFin);
    WalkVerdict(ReplyWalk(run, false), entries, j, ReplyStep(env, o, isFin), ReplyResult, ReplyValues(env));
    var m := LastDecider(entries[..j]);
    if m >= 0 {
      ReplyPrefixValues(env, run, o, entries, m, isFin);
    }
  }

  /** The `else` rule of a Reply block: the `else` at child j answers exactly when
      no condition with a non-empty `if` precedes it or the last one is false. */
  lemma ReplyElseRule(env: Env, run: Run, o: Origin, entries: seq<Entry>, j: nat, isFin: bool)
    requires OriginOk(env, o) && ReplyOk(entries) && j < |entries| && entries[j].Else?
    requires forall k :: 0 <= k < j ==> !entries[k].Rep?
    ensures var before := ReplyPrefix(env, run, o, entries, j, isFin).run;
      var after := ReplyPrefix(env, run, o, entries, j + 1, isFin).run;
      var m := LastDecider(entries[..j]);
      Answers(after.st.events) > Answers(before.st.events) <==> !(m >= 0 && ConditionHolds(entries[m].ifAttr, ValuesOf(env, run.st)))
  {
    ReplyVerdict(env, run, o, entries, j, isFin);
  }

  // ---------------------------------------------------------------------------
  // Actions

  /** Every child text of a condition or an else can be split and dispatched. */
  predicate AllDispatchable(texts: seq<string>)
  {
    forall k :: 0 <= k < |texts| ==> Dispatchable(Split(texts[k]), false)
  }

  /** The entries an Actions block can reach without indexing outside a command;
      `withApp` says whether its unconditional actions route `application`. */
  predicate EntryActionOk(e: Entry, withApp: bool)
  {
    && (e.Action? ==> Dispatchable(Split(e.text), withApp))
    && (e.Condition? && e.ifAttr != "" ==> AllDispatchable(e.children))
    && (e.Else? ==> AllDispatchable(e.children))
  }

  predicate ActionsOk(entries: seq<Entry>, withApp: bool)
  {
    forall k :: 0 <= k < |entries| ==> EntryActionOk(entries[k], withApp)
  }

  /** Every child of a condition or an else, in order, `application` forwarded. */
  function PerformAll(env: Env, st: State, iid: string, texts: seq<string>, j: nat): (r: State)
    requires AllDispatchable(texts)
    ensures Quiet(st, r) && r.ctx == st.ctx
    decreases |texts| - j
  {
    if j >= |texts| then st
    else PerformAll(env, Perform(env, st, Split(texts[j]), false, iid), iid, texts, j + 1)
  }

  datatype ActionsWalk = ActionsWalk(st: State, result: bool)

  /** One child of an Actions block. An `action` runs; a condition with a non-empty
      `if` runs all its children when it holds and becomes the last verdict; an
      `else` runs all its children when the last verdict is false. */
  function ActionEntry(env: Env, st: State, iid: string, e: Entry, result: bool, withApp: bool): (w: ActionsWalk)
    requires EntryActionOk(e, withApp)
    ensures Quiet(st, w.st) && w.st.ctx == st.ctx
    ensures Decides(e) ==> w.result == ConditionHolds(e.ifAttr, ValuesOf(env, st))
    ensures Decides(e) ==> w.st == if w.result then PerformAll(env, st, iid, e.children, 0) else st
    ensures e.Else? ==> w.result == result && w.st == if result then st else PerformAll(env, st, iid, e.children, 0)
    ensures e.Action? ==> w.result == result && w.st == Perform(env, st, Split(e.text), withApp, iid)
    ensures !Decides(e) && !e.Else? && !e.Action? ==> w == ActionsWalk(st, result)
  {
    match e
    case Action(t) => ActionsWalk(Perform(env, st, Split(t), withApp, iid), result)
    case Condition(c, _, children) =>
      if c == "" then ActionsWalk(st, result)
      else
        var holds := ConditionHolds(c, ValuesOf(env, st));
        ActionsWalk(if holds then PerformAll(env, st, iid, children, 0) else st, holds)
    case Else(_, children) =>
      ActionsWalk(if !result then PerformAll(env, st, iid, children, 0) else st, result)
    case _ => ActionsWalk(st, result)
  }

  /** The walk over an Actions block's children from entry i, `result` starting
      false. Unlike a Reply block, every action runs: nothing is drawn and nothing
      sets `isRep`. */
  function ActionsLoop(env: Env, st: State, iid: string, entries: seq<Entry>, i: nat, result: bool, withApp: bool): (r: State)
    requires ActionsOk(entries, withApp)
    ensures Quiet(st, r) && r.ctx == st.ctx
    decreases |entries| - i
  {
    if i >= |entries| then st
    else
      assert EntryActionOk(entries[i], withApp);
      var w := ActionEntry(env, st, iid, entries[i], result, withApp);
      ActionsLoop(env, w.st, iid, entries, i + 1, w.result, withApp)
  }

  /** One child of an Actions block as a step of the walk. */
  function ActionStep(env: Env, iid: string, withApp: bool): (ActionsWalk, Entry) -> ActionsWalk
  {
    (w: ActionsWalk, e: Entry) => if EntryActionOk(e, withApp) then ActionEntry(env, w.st, iid, e, w.result, withApp) else w
  }

  function ActionsResult(w: ActionsWalk): bool
  {
    w.result
  }

  /** What a condition reads at a position of an Actions walk. */
  function ActionsValues(env: Env): ActionsWalk -> Values
  {
    (w: ActionsWalk) => ValuesOf(env, w.st)
  }

  /** The walk over the first j children of an Actions block, the verdict starting
      false. */
  function ActionsPrefix(env: Env, st: State, iid: string, entries: seq<Entry>, j: nat, withApp: bool): ActionsWalk
    requires ActionsOk(entries, withApp) && j <= |entries|
  {
    WalkPrefix(ActionsWalk(st, false), entries, j, ActionStep(env, iid, withApp))
  }

  /** The rest of an Actions walk from a position, as a function of that position. */
  function ActionsRest(env: Env, iid: string, entries: seq<Entry>, withApp: bool): (ActionsWalk, nat) -> State
  {
    (w: ActionsWalk, i: nat) => if ActionsOk(entries, withApp) then ActionsLoop(env, w.st, iid, entries, i, w.result, withApp) else w.st
  }

  /** Each of the first j children is one step of the walk and one step of the
      rest of it. */
  lemma ActionsRestSteps(env: Env, iid: string, entries: seq<Entry>, j: nat, withApp: bool)
    requires ActionsOk(entries, withApp) && j <= |entries|
    ensures forall w: ActionsWalk, k :: 0 <= k < j ==> ActionsRest(env, iid, entries, withApp)(w, k) == ActionsRest(env, iid, entries, withApp)(ActionStep(env, iid, withApp)(w, entries[k]), k + 1)
  {
    forall w: ActionsWalk, k | 0 <= k < j
      ensures ActionsRest(env, iid, entries, withApp)(w, k) == ActionsRest(env, iid, entries, withApp)(ActionStep(env, iid, withApp)(w, entries[k]), k + 1)
    {
      assert EntryActionOk(entries[k], withApp);
    }
  }

  /** The Actions walk is its first j steps followed by the walk from child j. */
  lemma ActionsLoopPrefix(env: Env, st: State, iid: string, entries: seq<Entry>, j: nat, withApp: bool)
    requires ActionsOk(entries, withApp) && j <= |entries|
    ensures var w := ActionsPrefix(env, st, iid, entries, j, withApp);
      ActionsLoop(env, st, iid, entries, 0, false, withApp) == ActionsLoop(env, w.st, iid, entries, j, w.result, withApp)
  {
    ActionsRestSteps(env, iid, entries, j, withApp);
    WalkThenLoop(ActionsWalk(st, false), entries, j, ActionStep(env, iid, withApp), ActionsRest(env, iid, entries, withApp));
  }

  /** An Actions walk follows the verdict rule. */
  lemma ActionsFollowsRule(env: Env, iid: string, entries: seq<Entry>, j: nat, withApp: bool)
    requires ActionsOk(entries, withApp) && j <= |entries|
    ensures VerdictRule(entries, j, ActionStep(env, iid, withApp), ActionsResult, ActionsValues(env))
  {
    var step := ActionStep(env, iid, withApp);
    var verdict: ActionsWalk -> bool := ActionsResult;
    var vals := ActionsValues(env);
    forall w: ActionsWalk, k | 0 <= k < j
      ensures verdict(step(w, entries[k])) == if Decides(entries[k]) then ConditionHolds(entries[k].ifAttr, vals(w)) else verdict(w)
    {
      assert EntryActionOk(entries[k], withApp);
    }
  }

  /** The verdict after the first j children of an Actions block: false when no
      condition with a non-empty `if` came before, and otherwise the value of the
      last such condition, read in the state the walk had reached there (earlier
      actions may have changed the settings it reads). */
  lemma ActionsVerdict(env: Env, st: State, iid: string, entries: seq<Entry>, j: nat, withApp: bool)
    requires ActionsOk(entries, withApp) && j <= |entries|
    ensures var m := LastDecider(entries[..j]);
      ActionsPrefix(env, st, iid, entries, j, withApp).result ==
        (m >= 0 && ConditionHolds(entries[m].ifAttr, ValuesOf(env, ActionsPrefix(env, st, iid, entries, m, withApp).st)))
  {
    ActionsFollowsRule(env, iid, entries, j, withApp);
    WalkVerdict(ActionsWalk(st, false), entries, j, ActionStep(env, iid, withApp), ActionsResult, ActionsValues(env));
  }

  /** The `else` rule of an Actions block: the `else` at child j runs its children
      exactly when no condition with a non-empty `if` precedes it or the last one was
      false, and otherwise leaves the state as it was. */
  lemma ActionsElseRule(env: Env, st: State, iid: string, entries: seq<Entry>, j: nat, withApp: bool)
    requires ActionsOk(entries, withApp) && j < |entries| && entries[j].Else?
    ensures var before := ActionsPrefix(env, st, iid, entries, j, withApp).st;
      var m := LastDecider(entries[..j]);
      var verdict := m >= 0 && ConditionHolds(entries[m].ifAttr, ValuesOf(env, ActionsPrefix(env, st, iid, entries, m, withApp).st));
      ActionsPrefix(env, st, iid, entries, j + 1, withApp).st == if verdict then before else PerformAll(env, before, iid, entries[j].children, 0)
  {
    ActionsVerdict(env, st, iid, entries, j, withApp);
  }

  // ---------------------------------------------------------------------------
  // Blocks

  /** A block the walk can run without indexing an empty pool or a short command. */
  predicate LeafOk(b: Block, withApp: bool)
  {
    (b.Reply? ==> ReplyOk(b.entries)) && (b.Actions? ==> ActionsOk(b.entries, withApp))
  }

  predicate BlocksOk(blocks: seq<Block>, withApp: bool)
  {
    forall j :: 0 <= j < |blocks| ==> LeafOk(blocks[j], withApp)
  }

  /** An item's own blocks run in global passes, where unconditional `application`
      actions are handled by the engine; its sub-items' blocks run in follow-ups. */
  predicate ItemOk(item: Item)
  {
    && BlocksOk(item.blocks, true)
    && forall j :: 0 <= j < |item.blocks| && item.blocks[j].SubItem? ==> BlocksOk(item.blocks[j].item.blocks, false)
  }

  predicate DocOk(doc: seq<Item>)
  {
    forall k :: 0 <= k < |doc| ==> ItemOk(doc[k])
  }

  predicate DocsOk(plugins: seq<Plugin>)
  {
    forall p :: 0 <= p < |plugins| ==> DocOk(plugins[p].doc)
  }

  /** An in-range Keywords block decides `isOk` on its groups alone; out of range it
      changes nothing. */
  function KeywordsGate(run: Run, minWord: int, maxWord: int, groups: seq<Group>, seg: seq<string>): Run
  {
    if InRange(minWord, maxWord, seg) then run.(isOk := KeywordsPass(groups, seg)) else run
  }

  /** The capture vector of the first `var` entry and what follows it. */
  predicate Seeded(vars: seq<string>, seg: seq<string>)
  {
    |vars| >= 1 && vars[0] == Join(seg)
  }

  // ---------------------------------------------------------------------------
  // Global pass

  /** One block of item k of extension p in a global pass. A Prop block pushes its
      list whenever a context is open, `isOk` or not; Var, Reply and Actions blocks
      run only while `isOk` holds. */
  function GlobalBlock(env: Env, run: Run, p: nat, k: nat, b: Block, seg: seq<string>, isFin: bool): Run
    requires OriginOk(env, Global(p, k)) && LeafOk(b, true)
  {
    match b
    case Prop(texts) => if run.st.ctx.itemId != "" then run.(st := PushState(run.st, texts)) else run
    case Keywords(minWord, maxWord, groups) => KeywordsGate(run, minWord, maxWord, groups, seg)
    case Var(max, anchors) =>
      if run.isOk then run.(st := run.st.(vars := Captured(run.st.vars, seg, MaxAnchor(seg, anchors), max))) else run
    case Reply(entries) => if run.isOk then ReplyLoop(env, run, Global(p, k), entries, 0, false, isFin) else run
    case Actions(entries) =>
      if run.isOk then run.(st := ActionsLoop(env, run.st, env.plugins[p].iid, entries, 0, false, true)) else run
    case _ => run
  }

  /** What every global step keeps: the log grows and `isRep` tracks the answers,
      the context stays one a reply opened, and the capture vector keeps the joined
      segment in front. */
  lemma GlobalBlockKeeps(env: Env, run: Run, p: nat, k: nat, b: Block, seg: seq<string>, isFin: bool)
    requires OriginOk(env, Global(p, k)) && LeafOk(b, true)
    ensures Tracks(run, GlobalBlock(env, run, p, k, b, seg, isFin))
    ensures RunCtxOk(env, run) ==> RunCtxOk(env, GlobalBlock(env, run, p, k, b, seg, isFin))
    ensures Seeded(run.st.vars, seg) ==> Seeded(GlobalBlock(env, run, p, k, b, seg, isFin).st.vars, seg)
  {
    match b
    case Reply(entries) =>
      if run.isOk {
        ReplyLoopTracks(env, run, Global(p, k), entries, 0, false, isFin);
      }
    case _ =>
  }

  /** The walk over the blocks of item k of extension p from block j. */
  function GlobalBlocks(env: Env, run: Run, p: nat, k: nat, seg: seq<string>, isFin: bool, j: nat): Run
    requires OriginOk(env, Global(p, k)) && ItemOk(env.plugins[p].doc[k])
    decreases |env.plugins[p].doc[k].blocks| - j
  {
    var blocks := env.plugins[p].doc[k].blocks;
    if j >= |blocks| then run
    else
      assert LeafOk(blocks[j], true);
      GlobalBlocks(env, GlobalBlock(env, run, p, k, blocks[j], seg, isFin), p, k, seg, isFin, j + 1)
  }

  lemma {:induction false} GlobalBlocksKeep(env: Env, run: Run, p: nat, k: nat, seg: seq<string>, isFin: bool, j: nat)
    requires OriginOk(env, Global(p, k)) && ItemOk(env.plugins[p].doc[k])
    ensures Tracks(run, GlobalBlocks(env, run, p, k, seg, isFin, j))
    ensures RunCtxOk(env, run) ==> RunCtxOk(env, GlobalBlocks(env, run, p, k, seg, isFin, j))
    ensures Seeded(run.st.vars, seg) ==> Seeded(GlobalBlocks(env, run, p, k, seg, isFin, j).st.vars, seg)
    decreases |env.plugins[p].doc[k].blocks| - j
  {
    var blocks := env.plugins[p].doc[k].blocks;
    if j < |blocks| {
      assert LeafOk(blocks[j], true);
      var r := GlobalBlock(env, run, p, k, blocks[j], seg, isFin);
      GlobalBlockKeeps(env, run, p, k, blocks[j], seg, isFin);
      GlobalBlocksKeep(env, r, p, k, seg, isFin, j + 1);
      TracksTrans(run, r, GlobalBlocks(env, r, p, k, seg, isFin, j + 1));
    }
  }

  /** Item k of extension p: `var` starts as the joined segment, the blocks run in
      order, and `var` is cleared at the end. */
  function GlobalItem(env: Env, run: Run, p: nat, k: nat, seg: seq<string>, isFin: bool): Run
    requires OriginOk(env, Global(p, k)) && ItemOk(env.plugins[p].doc[k])
  {
    var r := GlobalBlocks(env, run.(st := run.st.(vars := [Join(seg)])), p, k, seg, isFin, 0);
    r.(st := r.st.(vars := []))
  }

  lemma GlobalItemKeeps(env: Env, run: Run, p: nat, k: nat, seg: seq<string>, isFin: bool)
    requires OriginOk(env, Global(p, k)) && ItemOk(env.plugins[p].doc[k])
    ensures Tracks(run, GlobalItem(env, run, p, k, seg, isFin))
    ensures RunCtxOk(env, run) ==> RunCtxOk(env, GlobalItem(env, run, p, k, seg, isFin))
  {
    GlobalBlocksKeep(env, run.(st := run.st.(vars := [Join(seg)])), p, k, seg, isFin, 0);
  }

  /** The item loop of extension p from item k: it stops once `isOk` holds after an
      item. */
  function GlobalItems(env: Env, run: Run, p: nat, k: nat, seg: seq<string>, isFin: bool): Run
    requires p < |env.plugins| && DocOk(env.plugins[p].doc)
    decreases |env.plugins[p].doc| - k
  {
    if k >= |env.plugins[p].doc| || run.isOk then run
    else
      assert ItemOk(env.plugins[p].doc[k]);
      GlobalItems(env, GlobalItem(env, run, p, k, seg, isFin), p, k + 1, seg, isFin)
  }

  lemma {:induction false} GlobalItemsKeep(env: Env, run: Run, p: nat, k: nat, seg: seq<string>, isFin: bool)
    requires p < |env.plugins| && DocOk(env.plugins[p].doc)
    ensures Tracks(run, GlobalItems(env, run, p, k, seg, isFin))
    ensures RunCtxOk(env, run) ==> RunCtxOk(env, GlobalItems(env, run, p, k, seg, isFin))
    decreases |env.plugins[p].doc| - k
  {
    if k < |env.plugins[p].doc| && !run.isOk {
      assert ItemOk(env.plugins[p].doc[k]);
      var r := GlobalItem(env, run, p, k, seg, isFin);
      GlobalItemKeeps(env, run, p, k, seg, isFin);
      GlobalItemsKeep(env, r, p, k + 1, seg, isFin);
      TracksTrans(run, r, GlobalItems(env, r, p, k + 1, seg, isFin));
    }
  }

  /** The extension loop of a global pass from extension p, in load order. */
  function GlobalPlugins(env: Env, run: Run, p: nat, seg: seq<string>, isFin: bool): Run
    requires DocsOk(env.plugins)
    decreases |env.plugins| - p
  {
    if p >= |env.plugins| then run
    else
      assert DocOk(env.plugins[p].doc);
      GlobalPlugins(env, GlobalItems(env, run, p, 0, seg, isFin), p + 1, seg, isFin)
  }

  lemma {:induction false} GlobalPluginsKeep(env: Env, run: Run, p: nat, seg: seq<string>, isFin: bool)
    requires DocsOk(env.plugins)
    ensures Tracks(run, GlobalPlugins(env, run, p, seg, isFin))
    ensures RunCtxOk(env, run) ==> RunCtxOk(env, GlobalPlugins(env, run, p, seg, isFin))
    decreases |env.plugins| - p
  {
    if p < |env.plugins| {
      assert DocOk(env.plugins[p].doc);
      var r := GlobalItems(env, run, p, 0, seg, isFin);
      GlobalItemsKeep(env, run, p, 0, seg, isFin);
      GlobalPluginsKeep(env, r, p + 1, seg, isFin);
      TracksTrans(run, r, GlobalPlugins(env, r, p + 1, seg, isFin));
    }
  }

  /** First match wins: once an item leaves `isOk` set, no later item of any
      extension is consulted. */
  lemma {:induction false} MatchedStops(env: Env, run: Run, p: nat, seg: seq<string>, isFin: bool)
    requires DocsOk(env.plugins) && run.isOk
    ensures GlobalPlugins(env, run, p, seg, isFin) == run
    decreases |env.plugins| - p
  {
    if p < |env.plugins| {
      assert DocOk(env.plugins[p].doc);
      assert GlobalItems(env, run, p, 0, seg, isFin) == run;
      MatchedStops(env, run, p + 1, seg, isFin);
    }
  }

  /** The reply sent when no rule answered: an apology with a button that searches
      the web for the joined segment. */
  function FallbackReply(seg: seq<string>): Event
  {
    Event.Reply("Désolé, je ne comprends pas ! :(", true, "message",
                ["web_message with_action_btn search " + Join(seg)], ["Chercher sur le web"])
  }

  /** The rule walk of `analizeAllPlugins`: the context is cleared and the suggestion
      lists restored, then every extension's items are tried with both flags false. */
  function GlobalRules(env: Env, st: State, seg: seq<string>, isFin: bool): Run
    requires DocsOk(env.plugins)
  {
    GlobalPlugins(env, Run(RestoreState(st.(ctx := NoContext)), false, false), 0, seg, isFin)
  }

  /** `analizeAllPlugins`: the rule walk, then the fallback when no reply was sent. */
  function GlobalPass(env: Env, st: State, seg: seq<string>, isFin: bool): State
    requires DocsOk(env.plugins)
  {
    var r := GlobalRules(env, st, seg, isFin);
    if r.isRep then r.st else r.st.(events := r.st.events + [FallbackReply(seg)])
  }

  /** A global pass answers at least once; the fallback is sent exactly when no rule
      answered; and the context afterwards is none or one that a reply of this pass
      opened. */
  lemma GlobalPassAnswers(env: Env, st: State, seg: seq<string>, isFin: bool)
    requires DocsOk(env.plugins)
    ensures st.events <= GlobalPass(env, st, seg, isFin).events
    ensures Answers(GlobalPass(env, st, seg, isFin).events) >= Answers(st.events) + 1
    ensures var rules := GlobalRules(env, st, seg, isFin).st.events;
      GlobalPass(env, st, seg, isFin).events == rules + [FallbackReply(seg)] <==> Answers(rules) == Answers(st.events)
    ensures CtxFrom(env, GlobalPass(env, st, seg, isFin).ctx)
    ensures GlobalPass(env, st, seg, isFin).ctx != NoContext ==> Answers(GlobalRules(env, st, seg, isFin).st.events) > Answers(st.events)
  {
    var s0 := RestoreState(st.(ctx := NoContext));
    var r0 := Run(s0, false, false);
    assert RunCtxOk(env, r0);
    GlobalPluginsKeep(env, r0, 0, seg, isFin);
    var r := GlobalRules(env, st, seg, isFin);
    if !r.isRep {
      AnswerAppend(r.st.events, FallbackReply(seg));
    }
  }

  /** The gates of the walk: an in-range Keywords block sets `isOk` to its verdict
      and an out-of-range one leaves it, touching nothing else; Var, Reply and Actions
      blocks do nothing while `isOk` is false. */
  lemma GlobalGates(env: Env, run: Run, p: nat, k: nat, b: Block, seg: seq<string>, isFin: bool)
    requires OriginOk(env, Global(p, k)) && LeafOk(b, true)
    ensures b.Keywords? ==>
      GlobalBlock(env, run, p, k, b, seg, isFin) == run.(isOk := if InRange(b.minWord, b.maxWord, seg) then KeywordsPass(b.groups, seg) else run.isOk)
    ensures (b.Var? || b.Reply? || b.Actions?) && !run.isOk ==> GlobalBlock(env, run, p, k, b, seg, isFin) == run
  {
  }

  // ---------------------------------------------------------------------------
  // Follow-up pass

  /** One block of a follow-up sub-item. Prop blocks and nested items are not
      consulted; the Var anchor is the first listed one that occurs; `application`
      actions are forwarded. */
  function ScopedBlock(env: Env, run: Run, iid: string, needId: string, b: Block, seg: seq<string>, isFin: bool): Run
    requires LeafOk(b, false)
  {
    match b
    case Keywords(minWord, maxWord, groups) => KeywordsGate(run, minWord, maxWord, groups, seg)
    case Var(max, anchors) =>
      if run.isOk then run.(st := run.st.(vars := Captured(run.st.vars, seg, FirstAnchor(seg, anchors), max))) else run
    case Reply(entries) => if run.isOk then ReplyLoop(env, run, Scoped(needId), entries, 0, false, isFin) else run
    case Actions(entries) => if run.isOk then run.(st := ActionsLoop(env, run.st, iid, entries, 0, false, false)) else run
    case _ => run
  }

  lemma ScopedBlockTracks(env: Env, run: Run, iid: string, needId: string, b: Block, seg: seq<string>, isFin: bool)
    requires LeafOk(b, false)
    ensures Tracks(run, ScopedBlock(env, run, iid, needId, b, seg, isFin))
  {
    match b
    case Reply(entries) =>
      if run.isOk {
        ReplyLoopTracks(env, run, Scoped(needId), entries, 0, false, isFin);
      }
    case _ =>
  }

  /** The walk over a sub-item's blocks from block j; it does not stop on `isOk`. */
  function ScopedBlocks(env: Env, run: Run, iid: string, sub: Item, seg: seq<string>, isFin: bool, j: nat): Run
    requires BlocksOk(sub.blocks, false)
    decreases |sub.blocks| - j
  {
    if j >= |sub.blocks| then run
    else
      assert LeafOk(sub.blocks[j], false);
      ScopedBlocks(env, ScopedBlock(env, run, iid, sub.needId, sub.blocks[j], seg, isFin), iid, sub, seg, isFin, j + 1)
  }

  lemma {:induction false} ScopedBlocksTrack(env: Env, run: Run, iid: string, sub: Item, seg: seq<string>, isFin: bool, j: nat)
    requires BlocksOk(sub.blocks, false)
    ensures Tracks(run, ScopedBlocks(env, run, iid, sub, seg, isFin, j))
    decreases |sub.blocks| - j
  {
    if j < |sub.blocks| {
      assert LeafOk(sub.blocks[j], false);
      var r := ScopedBlock(env, run, iid, sub.needId, sub.blocks[j], seg, isFin);
      ScopedBlockTracks(env, run, iid, sub.needId, sub.blocks[j], seg, isFin);
      ScopedBlocksTrack(env, r, iid, sub, seg, isFin, j + 1);
      TracksTrans(run, r, ScopedBlocks(env, r, iid, sub, seg, isFin, j + 1));
    }
  }

  /** The walk over an item's children from child j while `isOk` is false: a
      sub-item whose `id` is the expected `needId` appends the joined segment to
      `var` and runs its blocks. The expected `needId` is read afresh at each child. */
  function SubItems(env: Env, run: Run, iid: string, item: Item, seg: seq<string>, isFin: bool, j: nat): Run
    requires ItemOk(item)
    decreases |item.blocks| - j
  {
    if j >= |item.blocks| || run.isOk then run
    else
      var b := item.blocks[j];
      var r := if b.SubItem? && b.item.id == run.st.ctx.needId then
          assert BlocksOk(b.item.blocks, false);
          ScopedBlocks(env, run.(st := run.st.(vars := run.st.vars + [Join(seg)])), iid, b.item, seg, isFin, 0)
        else run;
      SubItems(env, r, iid, item, seg, isFin, j + 1)
  }

  lemma {:induction false} SubItemsTrack(env: Env, run: Run, iid: string, item: Item, seg: seq<string>, isFin: bool, j: nat)
    requires ItemOk(item)
    ensures Tracks(run, SubItems(env, run, iid, item, seg, isFin, j))
    decreases |item.blocks| - j
  {
    if j < |item.blocks| && !run.isOk {
      var b := item.blocks[j];
      var r := if b.SubItem? && b.item.id == run.st.ctx.needId then
          assert BlocksOk(b.item.blocks, false);
          ScopedBlocks(env, run.(st := run.st.(vars := run.st.vars + [Join(seg)])), iid, b.item, seg, isFin, 0)
        else run;
      if b.SubItem? && b.item.id == run.st.ctx.needId {
        assert BlocksOk(b.item.blocks, false);
        ScopedBlocksTrack(env, run.(st := run.st.(vars := run.st.vars + [Join(seg)])), iid, b.item, seg, isFin, 0);
      }
      SubItemsTrack(env, r, iid, item, seg, isFin, j + 1);
      TracksTrans(run, r, SubItems(env, r, iid, item, seg, isFin, j + 1));
    }
  }

  /** Item k of extension p in a follow-up: `var` is cleared, and when the item's
      `id` is the expected one its children are walked; `var` is cleared again at the
      end. */
  function ScopedItem(env: Env, run: Run, p: nat, k: nat, seg: seq<string>, isFin: bool): Run
    requires OriginOk(env, Global(p, k)) && ItemOk(env.plugins[p].doc[k])
  {
    var item := env.plugins[p].doc[k];
    var r0 := run.(st := run.st.(vars := []));
    var r := if item.id == r0.st.ctx.itemId then SubItems(env, r0, env.plugins[p].iid, item, seg, isFin, 0) else r0;
    r.(st := r.st.(vars := []))
  }

  lemma ScopedItemTracks(env: Env, run: Run, p: nat, k: nat, seg: seq<string>, isFin: bool)
    requires OriginOk(env, Global(p, k)) && ItemOk(env.plugins[p].doc[k])
    ensures Tracks(run, ScopedItem(env, run, p, k, seg, isFin))
  {
    var item := env.plugins[p].doc[k];
    var r0 := run.(st := run.st.(vars := []));
    SubItemsTrack(env, r0, env.plugins[p].iid, item, seg, isFin, 0);
  }

  /** The item loop of a follow-up in extension p from item k, while `isOk` is false. */
  function ScopedItems(env: Env, run: Run, p: nat, k: nat, seg: seq<string>, isFin: bool): Run
    requires p < |env.plugins| && DocOk(env.plugins[p].doc)
    decreases |env.plugins[p].doc| - k
  {
    if k >= |env.plugins[p].doc| || run.isOk then run
    else
      assert ItemOk(env.plugins[p].doc[k]);
      ScopedItems(env, ScopedItem(env, run, p, k, seg, isFin), p, k + 1, seg, isFin)
  }

  lemma {:induction false} ScopedItemsTrack(env: Env, run: Run, p: nat, k: nat, seg: seq<string>, isFin: bool)
    requires p < |env.plugins| && DocOk(env.plugins[p].doc)
    ensures Tracks(run, ScopedItems(env, run, p, k, seg, isFin))
    decreases |env.plugins[p].doc| - k
  {
    if k < |env.plugins[p].doc| && !run.isOk {
      assert ItemOk(env.plugins[p].doc[k]);
      var r := ScopedItem(env, run, p, k, seg, isFin);
      ScopedItemTracks(env, run, p, k, seg, isFin);
      ScopedItemsTrack(env, r, p, k + 1, seg, isFin);
      TracksTrans(run, r, ScopedItems(env, r, p, k + 1, seg, isFin));
    }
  }

  /** The extension loop of a follow-up: only the extension named by the context,
      read afresh for each extension, is consulted. */
  function ScopedPlugins(env: Env, run: Run, p: nat, seg: seq<string>, isFin: bool): Run
    requires DocsOk(env.plugins)
    decreases |env.plugins| - p
  {
    if p >= |env.plugins| then run
    else
      assert DocOk(env.plugins[p].doc);
      var r := if env.plugins[p].iid == run.st.ctx.pluginName then ScopedItems(env, run, p, 0, seg, isFin) else run;
      ScopedPlugins(env, r, p + 1, seg, isFin)
  }

  lemma {:induction false} ScopedPluginsTrack(env: Env, run: Run, p: nat, seg: seq<string>, isFin: bool)
    requires DocsOk(env.plugins)
    ensures Tracks(run, ScopedPlugins(env, run, p, seg, isFin))
    decreases |env.plugins| - p
  {
    if p < |env.plugins| {
      assert DocOk(env.plugins[p].doc);
      var r := if env.plugins[p].iid == run.st.ctx.pluginName then ScopedItems(env, run, p, 0, seg, isFin) else run;
      if env.plugins[p].iid == run.st.ctx.pluginName {
        ScopedItemsTrack(env, run, p, 0, seg, isFin);
      }
      ScopedPluginsTrack(env, r, p + 1, seg, isFin);
      TracksTrans(run, r, ScopedPlugins(env, r, p + 1, seg, isFin));
    }
  }

  /** `analizePlugin`: the follow-up walk with both flags false; its result says
      whether a reply was sent. */
  function ScopedPass(env: Env, st: State, seg: seq<string>, isFin: bool): Run
    requires DocsOk(env.plugins)
  {
    ScopedPlugins(env, Run(st, false, false), 0, seg, isFin)
  }

  /** `analizePlugin` returns true exactly when it sent an answer, and it only
      appends to the log. */
  lemma ScopedPassReplies(env: Env, st: State, seg: seq<string>, isFin: bool)
    requires DocsOk(env.plugins)
    ensures st.events <= ScopedPass(env, st, seg, isFin).st.events
    ensures Answers(ScopedPass(env, st, seg, isFin).st.events) >= Answers(st.events)
    ensures ScopedPass(env, st, seg, isFin).isRep <==> Answers(ScopedPass(env, st, seg, isFin).st.events) > Answers(st.events)
  {
    ScopedPluginsTrack(env, Run(st, false, false), 0, seg, isFin);
  }

  /** A follow-up reply's context change: a non-empty `needId` becomes the expected
      one, and "null" closes the dialogue and restores the suggestion lists. */
  lemma ScopedFollowUp(env: Env, st: State, needId: string)
    ensures needId == "null" ==>
      FollowUp(env, st, Scoped(needId)).ctx == NoContext && FollowUp(env, st, Scoped(needId)).props == Restore(st.props).props
    ensures needId != "" && needId != "null" ==> FollowUp(env, st, Scoped(needId)) == st.(ctx := st.ctx.(needId := needId))
    ensures needId == "" ==> FollowUp(env, st, Scoped(needId)) == st
  {
  }

  /** A dialogue opened over a non-empty `main_prop`: its Prop push followed by a
      "null" follow-up gives back `prop` and `main_prop` and shows `main_prop`. */
  lemma DialogueRoundTrip(env: Env, st: State, texts: seq<string>)
    requires st.props.mainProp != []
    ensures var s := FollowUp(env, PushState(st, texts), Scoped("null"));
      && s.ctx == NoContext && s.props.prop == st.props.prop && s.props.mainProp == st.props.mainProp
      && s.props.volatileProp == [] && s.props.removeCount == 0 && s.props.shown == st.props.mainProp
  {
    PushRestore(st.props, texts);
  }

  // ---------------------------------------------------------------------------
  // analize

  /** Segment i of a message: a follow-up pass when a context is open, then a global
      pass when that sent no reply; only a global pass otherwise. `isFin` holds when
      the segment equals the last one. Every segment is answered at least once. */
  function AnalyzeSeg(env: Env, st: State, segs: seq<seq<string>>, i: nat): (r: State)
    requires DocsOk(env.plugins) && i < |segs|
    ensures st.events <= r.events
    ensures Answers(r.events) >= Answers(st.events) + 1
  {
    var seg := segs[i];
    var isFin := seg == segs[|segs| - 1];
    if st.ctx.itemId != "" then
      var r := ScopedPass(env, st, seg, isFin);
      ScopedPassReplies(env, st, seg, isFin);
      if r.isRep then r.st
      else
        GlobalPassAnswers(env, r.st, seg, isFin);
        GlobalPass(env, r.st, seg, isFin)
    else
      GlobalPassAnswers(env, st, seg, isFin);
      GlobalPass(env, st, seg, isFin)
  }

  /** The segments from i on, in order. */
  function AnalyzeFrom(env: Env, st: State, segs: seq<seq<string>>, i: nat): State
    requires DocsOk(env.plugins)
    decreases |segs| - i
  {
    if i >= |segs| then st else AnalyzeFrom(env, AnalyzeSeg(env, st, segs, i), segs, i + 1)
  }

  /** `analize`: every segment of the message. */
  function Analyze(env: Env, st: State, segs: seq<seq<string>>): State
    requires DocsOk(env.plugins)
  {
    AnalyzeFrom(env, st, segs, 0)
  }

  lemma {:induction false} AnalyzeFromAnswers(env: Env, st: State, segs: seq<seq<string>>, i: nat)
    requires DocsOk(env.plugins) && i <= |segs|
    ensures st.events <= AnalyzeFrom(env, st, segs, i).events
    ensures Answers(AnalyzeFrom(env, st, segs, i).events) >= Answers(st.events) + (|segs| - i)
    decreases |segs| - i
  {
    if i < |segs| {
      var next := AnalyzeSeg(env, st, segs, i);
      AnalyzeFromAnswers(env, next, segs, i + 1);
      assert AnalyzeFrom(env, st, segs, i) == AnalyzeFrom(env, next, segs, i + 1);
      PrefixTrans(st.events, next.events, AnalyzeFrom(env, next, segs, i + 1).events);
    }
  }

  /** A message of n segments gets at least n answers, appended to the log. */
  lemma AnalyzeAnswers(env: Env, st: State, segs: seq<seq<string>>)
    requires DocsOk(env.plugins)
    ensures st.events <= Analyze(env, st, segs).events
    ensures Answers(Analyze(env, st, segs).events) >= Answers(st.events) + |segs|
  {
    AnalyzeFromAnswers(env, st, segs, 0);
  }
}
