/** The suggestion lists: `prop` (every suggestion), `main_prop` (the ones shown on an
    empty input), `mainVolatil_prop` (the saved `main_prop` while a follow-up list is
    active), `showedProp` (what the interface is showing) and `removePropNuber` (how
    many entries of `prop` the active follow-up list added). Sources:
    `Engine::textChanged` (src/engine.cpp 135-156), `Engine::addBaseProp` (163-172),
    the Prop push (447-461) and the restore (415-423, 903-911). */
module Props {
  import opened Strings
  import opened Events

  datatype Props = Props(prop: seq<string>, mainProp: seq<string>, volatileProp: seq<string>,
                         shown: seq<string>, removeCount: nat)

  /** The restore can remove `removeCount` entries from `prop`. */
  predicate Valid(p: Props)
  {
    p.removeCount <= |p.prop|
  }

  /** The lists as the engine keeps them. */
  type ValidProps = p: Props | Valid(p) witness Props([], [], [], [], 0)

  /** The lists after an operation, and the signals it emitted. */
  datatype Update = Update(props: Props, events: seq<Event>)

  // ---------------------------------------------------------------------------
  // What the interface shows, as told by the signals

  /** The effect of one signal on the list the interface shows. */
  function Apply(view: seq<string>, e: Event): seq<string>
  {
    match e
    case RemoveAllProps => []
    case AddProp(t) => view + [t]
    case RemoveProp(i) => if i < |view| then view[..i] + view[i + 1..] else view
    case _ => view
  }

  /** The list the interface shows after receiving `evs`, in order. */
  function Replay(view: seq<string>, evs: seq<Event>): seq<string>
    decreases |evs|
  {
    if evs == [] then view else Apply(Replay(view, evs[..|evs| - 1]), evs[|evs| - 1])
  }

  lemma ReplayOne(view: seq<string>, a: seq<Event>, e: Event)
    ensures Replay(view, a + [e]) == Apply(Replay(view, a), e)
  {
    assert (a + [e])[..|a|] == a;
  }

  lemma {:induction false} ReplayAppend(view: seq<string>, a: seq<Event>, b: seq<Event>)
    ensures Replay(view, a + b) == Replay(Replay(view, a), b)
    decreases |b|
  {
    if b == [] {
      assert a + b == a;
    } else {
      var front := b[..|b| - 1];
      var e := b[|b| - 1];
      assert b == front + [e];
      assert a + b == (a + front) + [e];
      ReplayOne(view, a + front, e);
      ReplayOne(Replay(view, a), front, e);
      ReplayAppend(view, a, front);
    }
  }

  // ---------------------------------------------------------------------------
  // addBaseProp

  function AddEvents(ts: seq<string>): (evs: seq<Event>)
    ensures |evs| == |ts| && forall k :: 0 <= k < |ts| ==> evs[k] == AddProp(ts[k])
  {
    seq(|ts|, k requires 0 <= k < |ts| => AddProp(ts[k]))
  }

  /** `addBaseProp`: clear the shown list, then show every entry of `main_prop`. */
  function AddBaseProp(p: Props): Update
  {
    Update(p.(shown := p.mainProp), [RemoveAllProps] + AddEvents(p.mainProp))
  }

  lemma {:induction false} ReplayAdds(view: seq<string>, ts: seq<string>)
    ensures Replay(view, AddEvents(ts)) == view + ts
    decreases |ts|
  {
    if ts == [] {
      assert view + ts == view;
    } else {
      var front := ts[..|ts| - 1];
      assert AddEvents(ts) == AddEvents(front) + [AddProp(ts[|ts| - 1])];
      ReplayOne(view, AddEvents(front), AddProp(ts[|ts| - 1]));
      ReplayAdds(view, front);
      assert view + front + [ts[|ts| - 1]] == view + ts;
    }
  }

  /** After `addBaseProp` the interface and `showedProp` both show `main_prop`,
      whatever was shown before. */
  lemma AddBasePropShows(p: Props, view: seq<string>)
    ensures AddBaseProp(p).props.shown == p.mainProp
    ensures Replay(view, AddBaseProp(p).events) == p.mainProp
  {
    ReplayOne(view, [], RemoveAllProps);
    assert [] + [RemoveAllProps] == [RemoveAllProps];
    ReplayAppend(view, [RemoveAllProps], AddEvents(p.mainProp));
    ReplayAdds([], p.mainProp);
  }

  // ---------------------------------------------------------------------------
  // Prop push and restore

  /** A Prop block: save `main_prop`, show the block's list instead, and append it to
      `prop`, remembering how many entries were added. */
  function Push(p: Props, texts: seq<string>): (u: Update)
    ensures Valid(u.props)
  {
    AddBaseProp(p.(volatileProp := p.mainProp, mainProp := texts, prop := p.prop + texts, removeCount := |texts|))
  }

  /** The restore: when a saved list exists, bring it back, drop the entries the last
      push added to `prop`, and show it; otherwise nothing happens. */
  function Restore(p: Props): (u: Update)
    requires Valid(p)
    ensures Valid(u.props)
    ensures p.volatileProp == [] ==> u == Update(p, [])
  {
    if p.volatileProp != [] then
      AddBaseProp(p.(mainProp := p.volatileProp, volatileProp := [], prop := p.prop[..|p.prop| - p.removeCount], removeCount := 0))
    else Update(p, [])
  }

  /** A push followed by one restore gives back `prop` and `main_prop` (and shows
      `main_prop` again), provided `main_prop` was non-empty. */
  lemma PushRestore(p: Props, texts: seq<string>)
    requires Valid(p) && p.mainProp != []
    ensures var q := Restore(Push(p, texts).props).props;
      q.prop == p.prop && q.mainProp == p.mainProp && q.volatileProp == [] && q.removeCount == 0
      && q.shown == p.mainProp
  {
    var pushed := Push(p, texts).props;
    assert pushed.prop[..|pushed.prop| - pushed.removeCount] == p.prop;
  }

  /** With an empty `main_prop` nothing is saved, so the restore does not fire and the
      pushed list stays. */
  lemma PushOverEmpty(p: Props, texts: seq<string>)
    requires Valid(p) && p.mainProp == []
    ensures Restore(Push(p, texts).props).props.mainProp == texts
  {
  }

  /** A second push before the restore overwrites what the first one saved: the
      restore then brings back the first pushed list, and its entries stay in `prop`. */
  lemma SecondPushLoses(p: Props, a: seq<string>, b: seq<string>)
    requires Valid(p) && a != []
    ensures var q := Restore(Push(Push(p, a).props, b).props).props;
      q.mainProp == a && q.prop == p.prop + a
  {
    var twice := Push(Push(p, a).props, b).props;
    assert twice.prop == p.prop + a + b;
    assert twice.prop[..|twice.prop| - |b|] == p.prop + a;
  }

  // ---------------------------------------------------------------------------
  // textChanged

  /** A suggestion matches the input when its first |text| characters equal the
      input under the case folding. */
  predicate Matches(fold: char -> char, text: string, s: string)
  {
    FoldEqual(fold, text, Truncate(s, |text|))
  }

  /** The match test for one input, as a value. */
  function Keep(fold: char -> char, text: string): string -> bool
  {
    s => Matches(fold, text, s)
  }

  /** The entries that match, in order. */
  function Filter(keep: string -> bool, ss: seq<string>): seq<string>
    decreases |ss|
  {
    if ss == [] then []
    else (if keep(ss[0]) then [ss[0]] else []) + Filter(keep, ss[1..])
  }

  /** Filter keeps exactly the matching entries. */
  lemma {:induction false} FilterKeeps(keep: string -> bool, ss: seq<string>)
    ensures forall k :: 0 <= k < |Filter(keep, ss)| ==> keep(Filter(keep, ss)[k])
    ensures forall k :: 0 <= k < |Filter(keep, ss)| ==> Filter(keep, ss)[k] in ss
    ensures forall k :: 0 <= k < |ss| && keep(ss[k]) ==> ss[k] in Filter(keep, ss)
    decreases |ss|
  {
    if ss != [] {
      FilterKeeps(keep, ss[1..]);
      assert forall k :: 1 <= k < |ss| ==> ss[k] == ss[1..][k - 1];
    }
  }

  /** The removal signals of the backward loop from index i up: the indices of the
      entries that do not match, highest first. */
  function RemovalsFrom(keep: string -> bool, ss: seq<string>, i: nat): seq<Event>
    decreases |ss| - i
  {
    if i >= |ss| then []
    else RemovalsFrom(keep, ss, i + 1) + (if keep(ss[i]) then [] else [RemoveProp(i)])
  }

  /** The forward loop over `prop`: each matching entry not yet shown is shown. */
  datatype Listing = Listing(shown: seq<string>, events: seq<Event>)

  function Admit(keep: string -> bool, shown: seq<string>, ps: seq<string>): Listing
    decreases |ps|
  {
    if ps == [] then Listing(shown, [])
    else
      var l := Admit(keep, shown, ps[..|ps| - 1]);
      var t := ps[|ps| - 1];
      if keep(t) && t !in l.shown then Listing(l.shown + [t], l.events + [AddProp(t)]) else l
  }

  /** `textChanged(text)`: hide the shown entries that no longer match, then show the
      matching entries of `prop` that are not shown yet. */
  function TextChanged(fold: char -> char, p: Props, text: string): Update
  {
    var keep := Keep(fold, text);
    var kept := Filter(keep, p.shown);
    var l := Admit(keep, kept, p.prop);
    Update(p.(shown := l.shown), RemovalsFrom(keep, p.shown, 0) + l.events)
  }

  lemma {:induction false} AdmitShape(keep: string -> bool, shown: seq<string>, ps: seq<string>)
    ensures var l := Admit(keep, shown, ps);
      && |shown| <= |l.shown| && l.shown[..|shown|] == shown
      && (forall k :: |shown| <= k < |l.shown| ==> keep(l.shown[k]) && l.shown[k] in ps)
      && (forall k :: 0 <= k < |ps| && keep(ps[k]) ==> ps[k] in l.shown)
    decreases |ps|
  {
    if ps != [] {
      var front := ps[..|ps| - 1];
      AdmitShape(keep, shown, front);
      var l := Admit(keep, shown, front);
      assert forall k :: 0 <= k < |front| ==> front[k] == ps[k];
      var t := ps[|ps| - 1];
      if keep(t) && t !in l.shown {
        assert (l.shown + [t])[..|shown|] == l.shown[..|shown|];
      }
    }
  }

  /** After `textChanged(text)` every shown entry matches the input, every matching
      entry of `prop` is shown, every shown entry was shown before or is in `prop`,
      and the entries that stay keep their order at the front. */
  lemma TextChangedShown(fold: char -> char, p: Props, text: string)
    ensures var s := TextChanged(fold, p, text).props.shown;
      && (forall k :: 0 <= k < |s| ==> Matches(fold, text, s[k]))
      && (forall k :: 0 <= k < |p.prop| && Matches(fold, text, p.prop[k]) ==> p.prop[k] in s)
      && (forall k :: 0 <= k < |s| ==> s[k] in p.shown || s[k] in p.prop)
      && var kept := Filter(Keep(fold, text), p.shown);
         |kept| <= |s| && s[..|kept|] == kept
  {
    var keep := Keep(fold, text);
    var kept := Filter(keep, p.shown);
    FilterKeeps(keep, p.shown);
    AdmitShape(keep, kept, p.prop);
    var s := TextChanged(fold, p, text).props.shown;
    forall k | 0 <= k < |s|
      ensures keep(s[k]) && (s[k] in p.shown || s[k] in p.prop)
    {
      if k < |kept| {
        assert s[k] == s[..|kept|][k] == kept[k];
        assert keep(kept[k]) && kept[k] in p.shown;
      } else {
        assert keep(s[k]) && s[k] in p.prop;
      }
    }
  }

  lemma FilterAt(keep: string -> bool, ss: seq<string>, i: nat)
    requires i < |ss|
    ensures Filter(keep, ss[i..]) == (if keep(ss[i]) then [ss[i]] else []) + Filter(keep, ss[i + 1..])
  {
    assert ss[i..][0] == ss[i];
    assert ss[i..][1..] == ss[i + 1..];
  }

  /** One step of the backward loop of `textChanged`, on the list it edits. Going
      down from index i + 1 to i, the list is ss[..i + 1] followed by the matching
      entries above i: a matching entry at i stays, any other is removed there. */
  lemma HideStep(keep: string -> bool, ss: seq<string>, i: nat)
    requires i < |ss|
    ensures var cur := ss[..i + 1] + Filter(keep, ss[i + 1..]);
      && cur[i] == ss[i]
      && (keep(ss[i]) ==> cur == ss[..i] + Filter(keep, ss[i..]))
      && (!keep(ss[i]) ==> cur[..i] + cur[i + 1..] == ss[..i] + Filter(keep, ss[i..]))
      && RemovalsFrom(keep, ss, i) == RemovalsFrom(keep, ss, i + 1) + (if keep(ss[i]) then [] else [RemoveProp(i)])
  {
    FilterAt(keep, ss, i);
    var rest := Filter(keep, ss[i + 1..]);
    var cur := ss[..i + 1] + rest;
    if keep(ss[i]) {
      assert cur == ss[..i] + ([ss[i]] + rest);
    } else {
      assert cur[..i] == ss[..i];
      assert cur[i + 1..] == rest;
    }
  }

  /** One step of the forward loop of `textChanged`. */
  lemma AdmitStep(keep: string -> bool, shown: seq<string>, ps: seq<string>, j: nat)
    requires j < |ps|
    ensures var l := Admit(keep, shown, ps[..j]);
      Admit(keep, shown, ps[..j + 1]) == if keep(ps[j]) && ps[j] !in l.shown then Listing(l.shown + [ps[j]], l.events + [AddProp(ps[j])]) else l
  {
    assert ps[..j + 1][..j] == ps[..j];
  }

  /** Removing index i of ss[..i + 1] + rest leaves ss[..i] + rest. */
  lemma RemoveAt(ss: seq<string>, i: nat, rest: seq<string>)
    requires i < |ss|
    ensures Apply(ss[..i + 1] + rest, RemoveProp(i)) == ss[..i] + rest
  {
    var mid := ss[..i + 1] + rest;
    assert mid[..i] == ss[..i];
    assert mid[i + 1..] == rest;
  }

  /** One step of the backward loop, on the replayed list: a matching entry stays. */
  lemma RemovalKeeps(keep: string -> bool, ss: seq<string>, i: nat, rest: seq<string>)
    requires i < |ss| && keep(ss[i])
    requires Replay(ss, RemovalsFrom(keep, ss, i + 1)) == ss[..i + 1] + rest
    ensures Replay(ss, RemovalsFrom(keep, ss, i)) == ss[..i] + ([ss[i]] + rest)
  {
    var before := RemovalsFrom(keep, ss, i + 1);
    assert RemovalsFrom(keep, ss, i) == before + [];
    assert before + [] == before;
    assert ss[..i + 1] + rest == ss[..i] + ([ss[i]] + rest);
  }

  /** One step of the backward loop, on the replayed list: any other entry goes. */
  lemma RemovalDrops(keep: string -> bool, ss: seq<string>, i: nat, rest: seq<string>)
    requires i < |ss| && !keep(ss[i])
    requires Replay(ss, RemovalsFrom(keep, ss, i + 1)) == ss[..i + 1] + rest
    ensures Replay(ss, RemovalsFrom(keep, ss, i)) == ss[..i] + rest
  {
    var before := RemovalsFrom(keep, ss, i + 1);
    assert RemovalsFrom(keep, ss, i) == before + [RemoveProp(i)];
    ReplayOne(ss, before, RemoveProp(i));
    RemoveAt(ss, i, rest);
  }

  lemma {:induction false} ReplayRemovals(keep: string -> bool, ss: seq<string>, i: nat)
    requires i <= |ss|
    ensures Replay(ss, RemovalsFrom(keep, ss, i)) == ss[..i] + Filter(keep, ss[i..])
    decreases |ss| - i
  {
    if i == |ss| {
      assert ss[..i] == ss && ss[i..] == [];
    } else {
      ReplayRemovals(keep, ss, i + 1);
      var rest := Filter(keep, ss[i + 1..]);
      FilterAt(keep, ss, i);
      if keep(ss[i]) {
        RemovalKeeps(keep, ss, i, rest);
      } else {
        RemovalDrops(keep, ss, i, rest);
      }
    }
  }

  lemma {:induction false} ReplayAdmit(keep: string -> bool, shown: seq<string>, ps: seq<string>)
    ensures Replay(shown, Admit(keep, shown, ps).events) == Admit(keep, shown, ps).shown
    decreases |ps|
  {
    if ps != [] {
      var front := ps[..|ps| - 1];
      ReplayAdmit(keep, shown, front);
      var l := Admit(keep, shown, front);
      var t := ps[|ps| - 1];
      if keep(t) && t !in l.shown {
        ReplayOne(shown, l.events, AddProp(t));
      }
    }
  }

  /** The signals `textChanged` emits turn what the interface showed into the new
      `showedProp`. */
  lemma TextChangedReplay(fold: char -> char, p: Props, text: string)
    ensures Replay(p.shown, TextChanged(fold, p, text).events) == TextChanged(fold, p, text).props.shown
  {
    var keep := Keep(fold, text);
    var kept := Filter(keep, p.shown);
    var removals := RemovalsFrom(keep, p.shown, 0);
    var l := Admit(keep, kept, p.prop);
    assert TextChanged(fold, p, text).events == removals + l.events;
    assert TextChanged(fold, p, text).props.shown == l.shown;
    ReplayRemovals(keep, p.shown, 0);
    assert p.shown[..0] + Filter(keep, p.shown[0..]) == kept by {
      assert p.shown[..0] == [] && p.shown[0..] == p.shown;
    }
    ReplayAdmit(keep, kept, p.prop);
    ReplayAppend(p.shown, removals, l.events);
  }

  /** The same holds of the push and of the restore, whatever was shown before. */
  lemma PushRestoreReplay(p: Props, texts: seq<string>)
    requires Valid(p)
    ensures Replay(p.shown, Push(p, texts).events) == Push(p, texts).props.shown
    ensures Replay(p.shown, Restore(p).events) == Restore(p).props.shown
  {
    var pushed := p.(volatileProp := p.mainProp, mainProp := texts, prop := p.prop + texts, removeCount := |texts|);
    AddBasePropShows(pushed, p.shown);
    if p.volatileProp != [] {
      var restored := p.(mainProp := p.volatileProp, volatileProp := [], prop := p.prop[..|p.prop| - p.removeCount], removeCount := 0);
      AddBasePropShows(restored, p.shown);
    }
  }
}
