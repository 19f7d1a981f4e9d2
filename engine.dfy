/** The engine object of src/engine.cpp: the fields its routines update in place,
    and one method per routine (and per loop that needs its own invariant). Every
    method is proved to leave the fields as the reference definitions of modules
    Props, Commands and Matcher say, and the properties of those definitions are
    proved there. */
module Engines {
  import opened Strings
  import opened Grammar
  import opened Substitution
  import opened Events
  import opened Commands
  import opened Matching
  import opened Matcher
  import P = Props
  import Normalize

  class Engine {
    /** The registered extensions and their rule documents, in load order. */
    const plugins: seq<Plugin>
    /** The lowering of `QString::toLower` and of QVariant's bool conversion. */
    const lower: char -> char
    /** The folding used by the case-insensitive comparison of `textChanged`. */
    const fold: char -> char
    /** The random source: draw number n picks `draw(n)` modulo the pool size. */
    const draw: nat -> nat

    var nextReplyPluginName: string
    var nextReplyNeedId: string
    var nextReplyItemId: string
    /** The capture vector `var`. */
    var vars: seq<string>
    var prop: seq<string>
    var mainProp: seq<string>
    var volatileProp: seq<string>
    var showedProp: seq<string>
    var removeCount: nat
    /** The stored settings `name` and `proposition`. */
    var userName: string
    var propEnabled: bool
    /** How many random draws were consumed. */
    var draws: nat
    /** Every signal emitted so far, in order. */
    var events: seq<Event>

    /** The restore can drop `removeCount` entries of `prop`. */
    ghost predicate Valid()
      reads this
    {
      removeCount <= |prop|
    }

    /** The fields as a value of the reference definitions. */
    ghost function Snapshot(): State
      reads this
      requires Valid()
    {
      State(Context(nextReplyPluginName, nextReplyNeedId, nextReplyItemId), vars,
            P.Props(prop, mainProp, volatileProp, showedProp, removeCount),
            userName, propEnabled, draws, events)
    }

    ghost function EnvOf(clock: Clock): Env
    {
      Env(plugins, lower, draw, clock)
    }

    /** What a template can refer to right now. */
    function Current(clock: Clock): (v: Values)
      reads this
      ensures v == Values(vars, userName, propEnabled, clock)
    {
      Values(vars, userName, propEnabled, clock)
    }

    /** A new engine over loaded extensions, the suggestion lists read from them and
        the stored settings; nothing is shown and no dialogue is open. */
    constructor (plugins: seq<Plugin>, lower: char -> char, fold: char -> char, draw: nat -> nat,
                 prop: seq<string>, mainProp: seq<string>, userName: string, propEnabled: bool)
      requires DocsOk(plugins)
      ensures Valid() && DocsOk(this.plugins)
      ensures this.plugins == plugins && this.lower == lower && this.fold == fold && this.draw == draw
      ensures Snapshot() == State(NoContext, [], P.Props(prop, mainProp, [], [], 0), userName, propEnabled, 0, [])
    {
      this.plugins := plugins;
      this.lower := lower;
      this.fold := fold;
      this.draw := draw;
      nextReplyPluginName, nextReplyNeedId, nextReplyItemId := "", "", "";
      vars := [];
      this.prop := prop;
      this.mainProp := mainProp;
      volatileProp := [];
      showedProp := [];
      removeCount := 0;
      this.userName := userName;
      this.propEnabled := propEnabled;
      draws := 0;
      events := [];
    }

    // -------------------------------------------------------------------------
    // Suggestion lists

    /** `addBaseProp` (src/engine.cpp 163-172). */
    method AddBaseProp()
      requires Valid()
      modifies this
      ensures Valid()
      ensures Snapshot() == BaseState(old(Snapshot()))
    {
      ghost var s0 := Snapshot();
      events := events + [RemoveAllProps];
      showedProp := [];
      var i := 0;
      while i < |mainProp|
        invariant 0 <= i <= |mainProp|
        invariant showedProp == mainProp[..i]
        invariant events == (s0.events + [RemoveAllProps]) + P.AddEvents(mainProp[..i])
        invariant unchanged(this`prop, this`mainProp, this`volatileProp, this`removeCount, this`vars, this`userName, this`propEnabled, this`draws)
        invariant unchanged(this`nextReplyItemId, this`nextReplyNeedId, this`nextReplyPluginName)
      {
        assert P.AddEvents(mainProp[..i + 1]) == P.AddEvents(mainProp[..i]) + [AddProp(mainProp[i])];
        AppendAssoc(s0.events + [RemoveAllProps], P.AddEvents(mainProp[..i]), [AddProp(mainProp[i])]);
        events := events + [AddProp(mainProp[i])];
        showedProp := showedProp + [mainProp[i]];
        i := i + 1;
      }
      assert mainProp[..i] == mainProp;
      AppendAssoc(s0.events, [RemoveAllProps], P.AddEvents(mainProp));
      BaseStateIs(s0);
    }

    /** The restore of `mainVolatil_prop` (src/engine.cpp 415-423 and 903-911): the
        countdown loop drops the entries the last push added to `prop`. */
    method RestoreProps()
      requires Valid()
      modifies this
      ensures Valid()
      ensures Snapshot() == RestoreState(old(Snapshot()))
    {
      if volatileProp != [] {
        ghost var s0 := Snapshot();
        RestoreIsBase(s0);
        mainProp := volatileProp;
        volatileProp := [];
        ghost var n := |prop| - removeCount;
        while removeCount != 0
          invariant removeCount <= |prop| && n + removeCount == |prop|
          invariant prop == s0.props.prop[..n + removeCount]
          invariant mainProp == s0.props.volatileProp && volatileProp == []
          invariant unchanged(this`showedProp, this`events, this`vars, this`userName, this`propEnabled, this`draws)
          invariant unchanged(this`nextReplyItemId, this`nextReplyNeedId, this`nextReplyPluginName)
          decreases removeCount
        {
          prop := prop[..|prop| - 1];
          removeCount := removeCount - 1;
        }
        assert Snapshot() == s0.(props := s0.props.(mainProp := s0.props.volatileProp, volatileProp := [], prop := s0.props.prop[..|s0.props.prop| - s0.props.removeCount], removeCount := 0));
        AddBaseProp();
      }
    }

    /** A Prop block's push (src/engine.cpp 447-461). */
    method PushProp(texts: seq<string>)
      requires Valid()
      modifies this
      ensures Valid()
      ensures Snapshot() == PushState(old(Snapshot()), texts)
    {
      PushIsBase(Snapshot(), texts);
      volatileProp := mainProp;
      mainProp := texts;
      prop := prop + texts;
      removeCount := |texts|;
      AddBaseProp();
    }

    /** `textChanged` (src/engine.cpp 135-156): hide the shown entries that no longer
        match, then show the matching entries of `prop` that are not shown yet. */
    method TextChanged(text: string)
      requires Valid()
      modifies this
      ensures Valid()
      ensures var u := P.TextChanged(fold, old(Snapshot()).props, text);
        Snapshot() == old(Snapshot()).(props := u.props, events := old(events) + u.events)
    {
      ghost var keep := P.Keep(fold, text);
      ghost var s0 := Snapshot();
      HideUnmatched(text);
      ShowMatched(text);
      AppendAssoc(s0.events, P.RemovalsFrom(keep, s0.props.shown, 0), P.Admit(keep, P.Filter(keep, s0.props.shown), s0.props.prop).events);
    }

    /** The backward loop of `textChanged`: every shown entry that does not match is
        removed, highest index first. */
    method HideUnmatched(text: string)
      requires Valid()
      modifies this
      ensures Valid()
      ensures var keep := P.Keep(fold, text);
        Snapshot() == old(Snapshot()).(props := old(Snapshot()).props.(shown := P.Filter(keep, old(showedProp))),
                                       events := old(events) + P.RemovalsFrom(keep, old(showedProp), 0))
    {
      ghost var keep := P.Keep(fold, text);
      ghost var shown0 := showedProp;
      var i := |showedProp|;
      while i > 0
        invariant 0 <= i <= |shown0|
        invariant showedProp == shown0[..i] + P.Filter(keep, shown0[i..])
        invariant events == old(events) + P.RemovalsFrom(keep, shown0, i)
        invariant unchanged(this`prop, this`mainProp, this`volatileProp, this`removeCount, this`vars, this`userName, this`propEnabled, this`draws)
        invariant unchanged(this`nextReplyItemId, this`nextReplyNeedId, this`nextReplyPluginName)
      {
        i := i - 1;
        P.HideStep(keep, shown0, i);
        var compareText := Truncate(showedProp[i], |text|);
        if !FoldEqual(fold, text, compareText) {
          AppendAssoc(old(events), P.RemovalsFrom(keep, shown0, i + 1), [RemoveProp(i)]);
          events := events + [RemoveProp(i)];
          showedProp := showedProp[..i] + showedProp[i + 1..];
        } else {
          assert P.RemovalsFrom(keep, shown0, i + 1) + [] == P.RemovalsFrom(keep, shown0, i + 1);
        }
      }
      assert shown0[0..] == shown0;
    }

    /** The forward loop of `textChanged`: each matching entry of `prop` that is not
        shown yet is appended. */
    method ShowMatched(text: string)
      requires Valid()
      modifies this
      ensures Valid()
      ensures var l := P.Admit(P.Keep(fold, text), old(showedProp), old(prop));
        Snapshot() == old(Snapshot()).(props := old(Snapshot()).props.(shown := l.shown), events := old(events) + l.events)
    {
      ghost var keep := P.Keep(fold, text);
      var j := 0;
      while j < |prop|
        invariant 0 <= j <= |prop|
        invariant showedProp == P.Admit(keep, old(showedProp), prop[..j]).shown
        invariant events == old(events) + P.Admit(keep, old(showedProp), prop[..j]).events
        invariant unchanged(this`prop, this`mainProp, this`volatileProp, this`removeCount, this`vars, this`userName, this`propEnabled, this`draws)
        invariant unchanged(this`nextReplyItemId, this`nextReplyNeedId, this`nextReplyPluginName)
      {
        P.AdmitStep(keep, old(showedProp), prop, j);
        var myText := prop[j];
        var compareText := Truncate(myText, |text|);
        if FoldEqual(fold, text, compareText) && myText !in showedProp {
          AppendAssoc(old(events), P.Admit(keep, old(showedProp), prop[..j]).events, [AddProp(myText)]);
          events := events + [AddProp(myText)];
          showedProp := showedProp + [myText];
        }
        j := j + 1;
      }
      assert prop[..j] == prop;
    }

    // -------------------------------------------------------------------------
    // Commands

    /** `execAction` (src/engine.cpp 223-326). The settings are stored in the
        fields; the `hideWindow` branch sits behind `cmd[1] != "quit"` being false,
        which makes `cmd[1]` "quit", so it is never taken and has no counterpart. */
    method ExecAction(cmd: seq<string>, clock: Clock)
      requires Valid() && WellFormedCommand(cmd)
      modifies this
      ensures Valid()
      ensures var e := Commands.ExecAction(lower, cmd, ValuesOf(EnvOf(clock), old(Snapshot())));
        Snapshot() == old(Snapshot()).(userName := e.userName, propEnabled := e.propEnabled, events := old(events) + e.events)
    {
      var vals := Current(clock);
      if cmd[0] == "settings" {
        if cmd[1] == "name" {
          if cmd[2] != "" {
            var variant := ReadVarInText(cmd[2], vals);
            userName := variant;
          }
        } else if cmd[1] == "prop" {
          if cmd[2] != "" {
            var variant := ReadVarInText(cmd[2], vals);
            propEnabled := ToBool(lower, variant);
          }
        } else if cmd[1] == "show" {
          events := events + [Event.Reply("", true, "settings", [], [])];
        }
      } else if cmd[0] == "application" {
        if cmd[1] != "quit" {
          events := events + [Quit];
        }
      } else if cmd[0] == "web_message" {
        if cmd[1] == "without_action_btn" || cmd[1] == "with_action_btn" {
          var kind := WebKind(cmd[1]);
          if cmd[2] == "search" {
            if cmd[3] != "" {
              var search := JoinWords(cmd[3..]);
              events := events + [Event.Reply("", true, kind, [SearchPrefix + search], [])];
            }
          } else if cmd[2] == "site" {
            if cmd[3] != "" {
              var input := ReadVarInText(cmd[2], vals);
              events := events + [SiteReply(kind, true, input)];
            }
          }
        }
      }
    }

    /** `executeAction` (src/engine.cpp 199-221): split the text, then run it. */
    method ExecuteAction(action: string, clock: Clock)
      requires Valid() && WellFormedCommand(Split(action))
      modifies this
      ensures Valid()
      ensures var e := Commands.ExecAction(lower, Split(action), ValuesOf(EnvOf(clock), old(Snapshot())));
        Snapshot() == old(Snapshot()).(userName := e.userName, propEnabled := e.propEnabled, events := old(events) + e.events)
    {
      var cmd := SplitCommand(action);
      ExecAction(cmd, clock);
    }

    /** One action of an Actions block: reserved commands run here, anything else
        is substituted token by token and forwarded to extension `iid`. */
    method Perform(cmd: seq<string>, withApp: bool, iid: string, clock: Clock)
      requires Valid() && Dispatchable(cmd, withApp)
      modifies this
      ensures Valid()
      ensures Snapshot() == Matcher.Perform(EnvOf(clock), old(Snapshot()), cmd, withApp, iid)
    {
      if Internal(cmd, withApp) {
        ExecAction(cmd, clock);
      } else {
        var out := SubstituteTokens(cmd, Current(clock));
        events := events + [PluginAction(iid, out)];
      }
    }

    // -------------------------------------------------------------------------
    // Replies

    /** `sendReply` of one entry of a pool, drawn at random and substituted. */
    method Emit(pool: seq<string>, isFin: bool, clock: Clock)
      requires Valid() && pool != []
      modifies this
      ensures Valid()
      ensures Snapshot() == Matcher.Emit(EnvOf(clock), old(Snapshot()), pool, isFin)
    {
      var val := draw(draws) % |pool|;
      var reply := ReadVarInText(pool[val], Current(clock));
      events := events + [Event.Reply(reply, isFin, "message", [], [])];
      draws := draws + 1;
    }

    /** The context change after a reply. */
    method FollowUp(o: Origin, clock: Clock)
      requires Valid() && OriginOk(EnvOf(clock), o)
      modifies this
      ensures Valid()
      ensures Snapshot() == Matcher.FollowUp(EnvOf(clock), old(Snapshot()), o)
    {
      match o
      case Global(p, k) =>
        var item := plugins[p].doc[k];
        if item.id != "" && item.needId != "" {
          nextReplyPluginName := plugins[p].iid;
          nextReplyNeedId := item.needId;
          nextReplyItemId := item.id;
        }
      case Scoped(needId) =>
        if needId != "" {
          nextReplyNeedId := needId;
        }
        if needId == "null" {
          nextReplyNeedId, nextReplyPluginName, nextReplyItemId := "", "", "";
          RestoreProps();
        }
    }

    /** A reply sent from a pool, then the context change. */
    method Answer(pool: seq<string>, isFin: bool, o: Origin, clock: Clock)
      requires Valid() && pool != [] && OriginOk(EnvOf(clock), o)
      modifies this
      ensures Valid()
      ensures Snapshot() == Matcher.Answer(EnvOf(clock), Run(old(Snapshot()), false, false), pool, isFin, o).st
    {
      Emit(pool, isFin, clock);
      FollowUp(o, clock);
    }

    /** One child of a Reply block other than a `rep`. */
    method ReplyChild(e: Entry, o: Origin, isOk: bool, isRep: bool, result: bool, isFin: bool, clock: Clock)
      returns (rep: bool, verdict: bool)
      requires Valid() && OriginOk(EnvOf(clock), o) && EntryReplyOk(e) && !e.Rep?
      modifies this
      ensures Valid()
      ensures ReplyWalk(Run(Snapshot(), isOk, rep), verdict) == ReplyEntry(EnvOf(clock), Run(old(Snapshot()), isOk, isRep), o, e, result, isFin)
    {
      rep, verdict := isRep, result;
      ghost var r0 := Run(Snapshot(), isOk, isRep);
      ghost var env := EnvOf(clock);
      match e
      case Condition(c, _, children) =>
        if c != "" {
          var vals := Current(clock);
          assert vals == ValuesOf(env, r0.st);
          verdict := EvalCondition(c, vals);
          if verdict {
            Answer(children, isFin, o, clock);
            rep := true;
            assert Run(Snapshot(), isOk, rep) == Matcher.Answer(env, r0, children, isFin, o);
          }
        }
      case Else(_, children) =>
        if !result {
          Answer(children, isFin, o, clock);
          rep := true;
          assert Run(Snapshot(), isOk, rep) == Matcher.Answer(env, r0, children, isFin, o);
        }
      case _ =>
    }

    /** A `rep` child: it and every later sibling form the pool, one entry is sent
        and the walk of the block ends. */
    method ReplyRep(entries: seq<Entry>, i: nat, o: Origin, isOk: bool, isRep: bool, result: bool, isFin: bool, clock: Clock)
      returns (rep: bool)
      requires Valid() && OriginOk(EnvOf(clock), o) && ReplyOk(entries) && i < |entries| && entries[i].Rep?
      modifies this
      ensures Valid()
      ensures Run(Snapshot(), isOk, rep) == ReplyLoop(EnvOf(clock), Run(old(Snapshot()), isOk, isRep), o, entries, i, result, isFin)
    {
      var repList := RepPool(entries, i);
      Answer(repList, isFin, o, clock);
      rep := true;
    }

    /** A Reply block: its children in order until a `rep` answers from itself and
        every later sibling. */
    method ReplyBlock(entries: seq<Entry>, o: Origin, isOk: bool, isRep: bool, isFin: bool, clock: Clock) returns (rep: bool)
      requires Valid() && OriginOk(EnvOf(clock), o) && ReplyOk(entries)
      modifies this
      ensures Valid()
      ensures Run(Snapshot(), isOk, rep) == ReplyLoop(EnvOf(clock), Run(old(Snapshot()), isOk, isRep), o, entries, 0, false, isFin)
    {
      rep := isRep;
      var result := false;
      ghost var goal := ReplyLoop(EnvOf(clock), Run(Snapshot(), isOk, isRep), o, entries, 0, false, isFin);
      var i := 0;
      while i < |entries|
        invariant 0 <= i <= |entries| && Valid()
        invariant ReplyLoop(EnvOf(clock), Run(Snapshot(), isOk, rep), o, entries, i, result, isFin) == goal
        decreases |entries| - i
      {
        if entries[i].Rep? {
          rep := ReplyRep(entries, i, o, isOk, rep, result, isFin, clock);
          i := |entries|;
        } else {
          assert EntryReplyOk(entries[i]);
          rep, result := ReplyChild(entries[i], o, isOk, rep, result, isFin, clock);
          i := i + 1;
        }
      }
    }

    // -------------------------------------------------------------------------
    // Actions

    /** The children of an Actions condition or else, each split and run in order;
        `application` is forwarded here. */
    method PerformAll(texts: seq<string>, iid: string, clock: Clock)
      requires Valid() && AllDispatchable(texts)
      modifies this
      ensures Valid()
      ensures Snapshot() == Matcher.PerformAll(EnvOf(clock), old(Snapshot()), iid, texts, 0)
    {
      ghost var goal := Matcher.PerformAll(EnvOf(clock), Snapshot(), iid, texts, 0);
      var j := 0;
      while j < |texts|
        invariant 0 <= j <= |texts| && Valid()
        invariant Matcher.PerformAll(EnvOf(clock), Snapshot(), iid, texts, j) == goal
      {
        var cmd := SplitCommand(texts[j]);
        Perform(cmd, false, iid, clock);
        j := j + 1;
      }
    }

    /** One child of an Actions block. */
    method ActionChild(e: Entry, iid: string, result: bool, withApp: bool, clock: Clock) returns (verdict: bool)
      requires Valid() && EntryActionOk(e, withApp)
      modifies this
      ensures Valid()
      ensures ActionsWalk(Snapshot(), verdict) == ActionEntry(EnvOf(clock), old(Snapshot()), iid, e, result, withApp)
    {
      verdict := result;
      match e
      case Action(t) =>
        var cmd := SplitCommand(t);
        Perform(cmd, withApp, iid, clock);
      case Condition(c, _, children) =>
        if c != "" {
          verdict := EvalCondition(c, Current(clock));
          if verdict {
            PerformAll(children, iid, clock);
          }
        }
      case Else(_, children) =>
        if !result {
          PerformAll(children, iid, clock);
        }
      case _ =>
    }

    /** An Actions block: every child in order. */
    method ActionsBlock(entries: seq<Entry>, iid: string, withApp: bool, clock: Clock)
      requires Valid() && ActionsOk(entries, withApp)
      modifies this
      ensures Valid()
      ensures Snapshot() == ActionsLoop(EnvOf(clock), old(Snapshot()), iid, entries, 0, false, withApp)
    {
      var result := false;
      ghost var goal := ActionsLoop(EnvOf(clock), Snapshot(), iid, entries, 0, false, withApp);
      var i := 0;
      while i < |entries|
        invariant 0 <= i <= |entries| && Valid()
        invariant ActionsLoop(EnvOf(clock), Snapshot(), iid, entries, i, result, withApp) == goal
      {
        assert EntryActionOk(entries[i], withApp);
        result := ActionChild(entries[i], iid, result, withApp, clock);
        i := i + 1;
      }
    }

    // -------------------------------------------------------------------------
    // Global pass

    /** The capture of a Var block, appended when non-empty. */
    method CaptureVar(seg: seq<string>, index: int, max: int)
      requires Valid() && -1 <= index < |seg|
      modifies this
      ensures Valid()
      ensures Snapshot() == old(Snapshot()).(vars := Captured(old(vars), seg, index, max))
    {
      var text := "";
      if index != -1 {
        text := CaptureAfter(seg, index, max);
      }
      if text != "" {
        vars := vars + [text];
      }
    }

    /** One block of item k of extension p in a global pass. */
    method GlobalBlock(p: nat, k: nat, b: Block, seg: seq<string>, isFin: bool, isOk: bool, isRep: bool, clock: Clock)
      returns (ok: bool, rep: bool)
      requires Valid() && OriginOk(EnvOf(clock), Global(p, k)) && LeafOk(b, true)
      modifies this
      ensures Valid()
      ensures Run(Snapshot(), ok, rep) == Matcher.GlobalBlock(EnvOf(clock), Run(old(Snapshot()), isOk, isRep), p, k, b, seg, isFin)
    {
      ok, rep := isOk, isRep;
      match b
      case Prop(texts) =>
        if nextReplyItemId != "" {
          PushProp(texts);
        }
      case Keywords(minWord, maxWord, groups) =>
        if |seg| >= minWord && |seg| <= maxWord {
          ok := EvalKeywords(groups, seg);
        }
      case Var(max, anchors) =>
        if isOk {
          var index := GlobalAnchor(seg, anchors);
          CaptureVar(seg, index, max);
        }
      case Reply(entries) =>
        if isOk {
          rep := ReplyBlock(entries, Global(p, k), isOk, isRep, isFin, clock);
        }
      case Actions(entries) =>
        if isOk {
          ActionsBlock(entries, plugins[p].iid, true, clock);
        }
      case _ =>
    }

    /** The blocks of item k of extension p, in order. */
    method GlobalBlocks(p: nat, k: nat, seg: seq<string>, isFin: bool, isOk: bool, isRep: bool, clock: Clock)
      returns (ok: bool, rep: bool)
      requires Valid() && OriginOk(EnvOf(clock), Global(p, k)) && ItemOk(plugins[p].doc[k])
      modifies this
      ensures Valid()
      ensures Run(Snapshot(), ok, rep) == Matcher.GlobalBlocks(EnvOf(clock), Run(old(Snapshot()), isOk, isRep), p, k, seg, isFin, 0)
    {
      ok, rep := isOk, isRep;
      ghost var env := EnvOf(clock);
      ghost var goal := Matcher.GlobalBlocks(env, Run(Snapshot(), ok, rep), p, k, seg, isFin, 0);
      var blocks := plugins[p].doc[k].blocks;
      var j := 0;
      while j < |blocks|
        invariant 0 <= j <= |blocks| && Valid()
        invariant Matcher.GlobalBlocks(env, Run(Snapshot(), ok, rep), p, k, seg, isFin, j) == goal
      {
        assert LeafOk(blocks[j], true);
        ok, rep := GlobalBlock(p, k, blocks[j], seg, isFin, ok, rep, clock);
        j := j + 1;
      }
    }

    /** Item k of extension p in a global pass: `var` starts as the joined segment,
        every block runs, and `var` is cleared. */
    method GlobalItem(p: nat, k: nat, seg: seq<string>, isFin: bool, isOk: bool, isRep: bool, clock: Clock)
      returns (ok: bool, rep: bool)
      requires Valid() && OriginOk(EnvOf(clock), Global(p, k)) && ItemOk(plugins[p].doc[k])
      modifies this
      ensures Valid()
      ensures Run(Snapshot(), ok, rep) == Matcher.GlobalItem(EnvOf(clock), Run(old(Snapshot()), isOk, isRep), p, k, seg, isFin)
    {
      ghost var r0 := Run(Snapshot(), isOk, isRep);
      var cmdString := JoinWords(seg);
      vars := [cmdString];
      assert Run(Snapshot(), isOk, isRep) == r0.(st := r0.st.(vars := [Join(seg)]));
      ok, rep := GlobalBlocks(p, k, seg, isFin, isOk, isRep, clock);
      ghost var r1 := Run(Snapshot(), ok, rep);
      vars := [];
      assert Run(Snapshot(), ok, rep) == r1.(st := r1.st.(vars := []));
    }

    /** The item loop of extension p: it stops after the first item that leaves
        `isOk` set. */
    method GlobalItems(p: nat, seg: seq<string>, isFin: bool, isOk: bool, isRep: bool, clock: Clock)
      returns (ok: bool, rep: bool)
      requires Valid() && p < |plugins| && DocOk(plugins[p].doc)
      modifies this
      ensures Valid()
      ensures Run(Snapshot(), ok, rep) == Matcher.GlobalItems(EnvOf(clock), Run(old(Snapshot()), isOk, isRep), p, 0, seg, isFin)
    {
      ok, rep := isOk, isRep;
      ghost var env := EnvOf(clock);
      ghost var goal := Matcher.GlobalItems(env, Run(Snapshot(), ok, rep), p, 0, seg, isFin);
      var k := 0;
      while k < |plugins[p].doc| && !ok
        invariant 0 <= k <= |plugins[p].doc| && Valid()
        invariant Matcher.GlobalItems(env, Run(Snapshot(), ok, rep), p, k, seg, isFin) == goal
      {
        assert ItemOk(plugins[p].doc[k]);
        ok, rep := GlobalItem(p, k, seg, isFin, ok, rep, clock);
        k := k + 1;
      }
    }

    /** The rule walk of a global pass: the context is cleared, the suggestion lists
        restored, and every extension tried in load order. */
    method GlobalRules(seg: seq<string>, isFin: bool, clock: Clock) returns (isOk: bool, isRep: bool)
      requires Valid() && DocsOk(plugins)
      modifies this
      ensures Valid()
      ensures Run(Snapshot(), isOk, isRep) == Matcher.GlobalRules(EnvOf(clock), old(Snapshot()), seg, isFin)
    {
      ghost var s0 := Snapshot();
      nextReplyNeedId, nextReplyPluginName, nextReplyItemId := "", "", "";
      assert Snapshot() == s0.(ctx := NoContext);
      RestoreProps();
      isOk, isRep := GlobalPlugins(seg, isFin, clock);
    }

    /** The extension loop of a global pass, in load order, from both flags false. */
    method GlobalPlugins(seg: seq<string>, isFin: bool, clock: Clock) returns (isOk: bool, isRep: bool)
      requires Valid() && DocsOk(plugins)
      modifies this
      ensures Valid()
      ensures Run(Snapshot(), isOk, isRep) == Matcher.GlobalPlugins(EnvOf(clock), Run(old(Snapshot()), false, false), 0, seg, isFin)
    {
      isOk, isRep := false, false;
      ghost var env := EnvOf(clock);
      ghost var goal := Matcher.GlobalPlugins(env, Run(Snapshot(), false, false), 0, seg, isFin);
      var p := 0;
      while p < |plugins|
        invariant 0 <= p <= |plugins| && Valid()
        invariant Matcher.GlobalPlugins(env, Run(Snapshot(), isOk, isRep), p, seg, isFin) == goal
      {
        assert DocOk(plugins[p].doc);
        isOk, isRep := GlobalItems(p, seg, isFin, isOk, isRep, clock);
        p := p + 1;
      }
    }

    /** `analizeAllPlugins` (src/engine.cpp 409-786): the rule walk, then the
        fallback when no reply was sent. */
    method AnalizeAllPlugins(seg: seq<string>, isFin: bool, clock: Clock)
      requires Valid() && DocsOk(plugins)
      modifies this
      ensures Valid()
      ensures Snapshot() == GlobalPass(EnvOf(clock), old(Snapshot()), seg, isFin)
    {
      ghost var r := Matcher.GlobalRules(EnvOf(clock), Snapshot(), seg, isFin);
      var isOk, isRep := GlobalRules(seg, isFin, clock);
      if !isRep {
        var search := JoinWords(seg);
        events := events + [Event.Reply("Désolé, je ne comprends pas ! :(", true, "message",
                                        ["web_message with_action_btn search " + search], ["Chercher sur le web"])];
        assert Snapshot() == r.st.(events := r.st.events + [FallbackReply(seg)]);
      }
    }

    // -------------------------------------------------------------------------
    // Follow-up pass

    /** One block of a follow-up sub-item with the given `needId`. */
    method ScopedBlock(iid: string, needId: string, b: Block, seg: seq<string>, isFin: bool, isOk: bool, isRep: bool, clock: Clock)
      returns (ok: bool, rep: bool)
      requires Valid() && LeafOk(b, false)
      modifies this
      ensures Valid()
      ensures Run(Snapshot(), ok, rep) == Matcher.ScopedBlock(EnvOf(clock), Run(old(Snapshot()), isOk, isRep), iid, needId, b, seg, isFin)
    {
      ok, rep := isOk, isRep;
      match b
      case Keywords(minWord, maxWord, groups) =>
        if |seg| >= minWord && |seg| <= maxWord {
          ok := EvalKeywords(groups, seg);
        }
      case Var(max, anchors) =>
        if isOk {
          var index := ScopedAnchor(seg, anchors);
          CaptureVar(seg, index, max);
        }
      case Reply(entries) =>
        if isOk {
          rep := ReplyBlock(entries, Scoped(needId), isOk, isRep, isFin, clock);
        }
      case Actions(entries) =>
        if isOk {
          ActionsBlock(entries, iid, false, clock);
        }
      case _ =>
    }

    /** The blocks of a follow-up sub-item, in order. */
    method ScopedBlocks(iid: string, sub: Item, seg: seq<string>, isFin: bool, isOk: bool, isRep: bool, clock: Clock)
      returns (ok: bool, rep: bool)
      requires Valid() && BlocksOk(sub.blocks, false)
      modifies this
      ensures Valid()
      ensures Run(Snapshot(), ok, rep) == Matcher.ScopedBlocks(EnvOf(clock), Run(old(Snapshot()), isOk, isRep), iid, sub, seg, isFin, 0)
    {
      ok, rep := isOk, isRep;
      ghost var env := EnvOf(clock);
      ghost var goal := Matcher.ScopedBlocks(env, Run(Snapshot(), ok, rep), iid, sub, seg, isFin, 0);
      var j := 0;
      while j < |sub.blocks|
        invariant 0 <= j <= |sub.blocks| && Valid()
        invariant Matcher.ScopedBlocks(env, Run(Snapshot(), ok, rep), iid, sub, seg, isFin, j) == goal
      {
        assert LeafOk(sub.blocks[j], false);
        ok, rep := ScopedBlock(iid, sub.needId, sub.blocks[j], seg, isFin, ok, rep, clock);
        j := j + 1;
      }
    }

    /** A sub-item whose `id` is the expected `needId`: the joined segment is
        appended to `var` and its blocks run. */
    method SubItem(iid: string, sub: Item, seg: seq<string>, isFin: bool, isOk: bool, isRep: bool, clock: Clock)
      returns (ok: bool, rep: bool)
      requires Valid() && BlocksOk(sub.blocks, false)
      modifies this
      ensures Valid()
      ensures Run(Snapshot(), ok, rep) == Matcher.ScopedBlocks(EnvOf(clock), Run(old(Snapshot()).(vars := old(vars) + [Join(seg)]), isOk, isRep), iid, sub, seg, isFin, 0)
    {
      ghost var s0 := Snapshot();
      var cmdString := JoinWords(seg);
      vars := vars + [cmdString];
      assert Snapshot() == s0.(vars := s0.vars + [Join(seg)]);
      ok, rep := ScopedBlocks(iid, sub, seg, isFin, isOk, isRep, clock);
    }

    /** The children of a follow-up item while `isOk` is false. */
    method SubItems(iid: string, item: Item, seg: seq<string>, isFin: bool, isOk: bool, isRep: bool, clock: Clock)
      returns (ok: bool, rep: bool)
      requires Valid() && ItemOk(item)
      modifies this
      ensures Valid()
      ensures Run(Snapshot(), ok, rep) == Matcher.SubItems(EnvOf(clock), Run(old(Snapshot()), isOk, isRep), iid, item, seg, isFin, 0)
    {
      ok, rep := isOk, isRep;
      ghost var env := EnvOf(clock);
      ghost var goal := Matcher.SubItems(env, Run(Snapshot(), ok, rep), iid, item, seg, isFin, 0);
      var j := 0;
      while j < |item.blocks| && !ok
        invariant 0 <= j <= |item.blocks| && Valid()
        invariant Matcher.SubItems(env, Run(Snapshot(), ok, rep), iid, item, seg, isFin, j) == goal
      {
        var b := item.blocks[j];
        if b.SubItem? && b.item.id == nextReplyNeedId {
          assert BlocksOk(b.item.blocks, false);
          ok, rep := SubItem(iid, b.item, seg, isFin, ok, rep, clock);
        }
        j := j + 1;
      }
    }

    /** Item k of extension p in a follow-up: `var` is cleared, the children of the
        expected item are walked, and `var` is cleared again. */
    method ScopedItem(p: nat, k: nat, seg: seq<string>, isFin: bool, isOk: bool, isRep: bool, clock: Clock)
      returns (ok: bool, rep: bool)
      requires Valid() && OriginOk(EnvOf(clock), Global(p, k)) && ItemOk(plugins[p].doc[k])
      modifies this
      ensures Valid()
      ensures Run(Snapshot(), ok, rep) == Matcher.ScopedItem(EnvOf(clock), Run(old(Snapshot()), isOk, isRep), p, k, seg, isFin)
    {
      ghost var r0 := Run(Snapshot(), isOk, isRep);
      vars := [];
      assert Run(Snapshot(), isOk, isRep) == r0.(st := r0.st.(vars := []));
      ok, rep := isOk, isRep;
      var item := plugins[p].doc[k];
      if item.id == nextReplyItemId {
        ok, rep := SubItems(plugins[p].iid, item, seg, isFin, isOk, isRep, clock);
      }
      ghost var r1 := Run(Snapshot(), ok, rep);
      vars := [];
      assert Run(Snapshot(), ok, rep) == r1.(st := r1.st.(vars := []));
    }

    /** The item loop of a follow-up in extension p, while `isOk` is false. */
    method ScopedItems(p: nat, seg: seq<string>, isFin: bool, isOk: bool, isRep: bool, clock: Clock)
      returns (ok: bool, rep: bool)
      requires Valid() && p < |plugins| && DocOk(plugins[p].doc)
      modifies this
      ensures Valid()
      ensures Run(Snapshot(), ok, rep) == Matcher.ScopedItems(EnvOf(clock), Run(old(Snapshot()), isOk, isRep), p, 0, seg, isFin)
    {
      ok, rep := isOk, isRep;
      ghost var env := EnvOf(clock);
      ghost var goal := Matcher.ScopedItems(env, Run(Snapshot(), ok, rep), p, 0, seg, isFin);
      var k := 0;
      while k < |plugins[p].doc| && !ok
        invariant 0 <= k <= |plugins[p].doc| && Valid()
        invariant Matcher.ScopedItems(env, Run(Snapshot(), ok, rep), p, k, seg, isFin) == goal
      {
        assert ItemOk(plugins[p].doc[k]);
        ok, rep := ScopedItem(p, k, seg, isFin, ok, rep, clock);
        k := k + 1;
      }
    }

    /** `analizePlugin` (src/engine.cpp 788-1178): only the extension named by the
        context is consulted; the result says whether a reply was sent. */
    method AnalizePlugin(seg: seq<string>, isFin: bool, clock: Clock) returns (isRep: bool)
      requires Valid() && DocsOk(plugins)
      modifies this
      ensures Valid()
      ensures Run(Snapshot(), ScopedPass(EnvOf(clock), old(Snapshot()), seg, isFin).isOk, isRep) == ScopedPass(EnvOf(clock), old(Snapshot()), seg, isFin)
    {
      var isOk := false;
      isRep := false;
      ghost var env := EnvOf(clock);
      ghost var goal := ScopedPlugins(env, Run(Snapshot(), false, false), 0, seg, isFin);
      var p := 0;
      while p < |plugins|
        invariant 0 <= p <= |plugins| && Valid()
        invariant ScopedPlugins(env, Run(Snapshot(), isOk, isRep), p, seg, isFin) == goal
      {
        assert DocOk(plugins[p].doc);
        if plugins[p].iid == nextReplyPluginName {
          isOk, isRep := ScopedItems(p, seg, isFin, isOk, isRep, clock);
        }
        p := p + 1;
      }
    }

    // -------------------------------------------------------------------------
    // analize and format

    /** Segment i: a follow-up pass while a context is open, then a global pass if
        that sent no reply. */
    method AnalizeSeg(segs: seq<seq<string>>, i: nat, clock: Clock)
      requires Valid() && DocsOk(plugins) && i < |segs|
      modifies this
      ensures Valid()
      ensures Snapshot() == AnalyzeSeg(EnvOf(clock), old(Snapshot()), segs, i)
    {
      var seg := segs[i];
      var isFin := seg == segs[|segs| - 1];
      if nextReplyItemId != "" {
        var returnBool := AnalizePlugin(seg, isFin, clock);
        if !returnBool {
          AnalizeAllPlugins(seg, isFin, clock);
        }
      } else {
        AnalizeAllPlugins(seg, isFin, clock);
      }
    }

    /** `analize` (src/engine.cpp 394-407): every segment, in order. */
    method Analize(segs: seq<seq<string>>, clock: Clock)
      requires Valid() && DocsOk(plugins)
      modifies this
      ensures Valid()
      ensures Snapshot() == Analyze(EnvOf(clock), old(Snapshot()), segs)
    {
      ghost var env := EnvOf(clock);
      ghost var goal := Analyze(env, Snapshot(), segs);
      var i := 0;
      while i < |segs|
        invariant 0 <= i <= |segs| && Valid()
        invariant AnalyzeFrom(env, Snapshot(), segs, i) == goal
      {
        AnalizeSeg(segs, i, clock);
        i := i + 1;
      }
    }

    /** `format` (src/engine.cpp 328-392): the message is lowered and split into
        segments, which are analysed in order. */
    method Format(raw: string, clock: Clock)
      requires Valid() && DocsOk(plugins)
      modifies this
      ensures Valid()
      ensures Snapshot() == Analyze(EnvOf(clock), old(Snapshot()), Normalize.Normalized(lower, raw))
    {
      var segs := Normalize.Format(lower, raw);
      Analize(segs, clock);
    }
  }

  /** The pool of a `rep`: the texts of it and of every later sibling, whatever
      their tag. */
  method RepPool(entries: seq<Entry>, i: nat) returns (repList: seq<string>)
    requires i <= |entries|
    ensures repList == Texts(entries[i..])
  {
    repList := [];
    var j := i;
    while j < |entries|
      invariant i <= j <= |entries|
      invariant repList == Texts(entries[i..j])
    {
      assert Texts(entries[i..j + 1]) == Texts(entries[i..j]) + [entries[j].text];
      repList := repList + [entries[j].text];
      j := j + 1;
    }
    assert entries[i..j] == entries[i..];
  }
}
