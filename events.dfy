/** The signals the engine emits, recorded in order as an event log. */
module Events {

  /** One emitted signal.
      - `Reply`: `reponseSended(text, isFin, kind, urls, labels)`.
      - `AddProp` / `RemoveProp` / `RemoveAllProps`: the suggestion-list signals.
      - `SiteReply`: a `web_message … site` reply, whose URL comes from Qt's URL parser
        (`QUrl::fromUserInput` when `fromUserInput`, the `QUrl` constructor otherwise)
        applied to `input`.
      - `Quit`: `QApplication::quit()`; `HideWindow`: the `hideWindow` signal.
      - `PluginAction`: a command forwarded to the extension `iid` through its
        `execAction`. */
  datatype Event =
    | Reply(text: string, isFin: bool, kind: string, urls: seq<string>, labels: seq<string>)
    | AddProp(prop: string)
    | RemoveProp(index: nat)
    | RemoveAllProps
    | SiteReply(kind: string, fromUserInput: bool, input: string)
    | Quit
    | HideWindow
    | PluginAction(iid: string, cmd: seq<string>)

  /** An answer to the user: a reply of kind "message". */
  predicate IsAnswer(e: Event)
  {
    e.Reply? && e.kind == "message"
  }

  /** How many answers a log holds. */
  function Answers(evs: seq<Event>): nat
    decreases |evs|
  {
    if evs == [] then 0 else Answers(evs[..|evs| - 1]) + (if IsAnswer(evs[|evs| - 1]) then 1 else 0)
  }

  lemma {:induction false} AnswersAppend(a: seq<Event>, b: seq<Event>)
    ensures Answers(a + b) == Answers(a) + Answers(b)
    decreases |b|
  {
    if b == [] {
      assert a + b == a;
    } else {
      var front := b[..|b| - 1];
      assert (a + b)[..|a + b| - 1] == a + front;
      assert (a + b)[|a + b| - 1] == b[|b| - 1];
      AnswersAppend(a, front);
    }
  }

  /** A log without answers counts none. */
  lemma {:induction false} NoAnswers(evs: seq<Event>)
    requires forall k :: 0 <= k < |evs| ==> !IsAnswer(evs[k])
    ensures Answers(evs) == 0
    decreases |evs|
  {
    if evs != [] {
      var front := evs[..|evs| - 1];
      assert forall k :: 0 <= k < |front| ==> front[k] == evs[k];
      NoAnswers(front);
    }
  }

  /** Appending signals that are not answers keeps the count. */
  lemma QuietAppend(a: seq<Event>, b: seq<Event>)
    requires forall k :: 0 <= k < |b| ==> !IsAnswer(b[k])
    ensures Answers(a + b) == Answers(a)
  {
    NoAnswers(b);
    AnswersAppend(a, b);
  }

  /** Appending one answer adds one. */
  lemma AnswerAppend(a: seq<Event>, e: Event)
    requires IsAnswer(e)
    ensures Answers(a + [e]) == Answers(a) + 1
  {
    assert (a + [e])[..|a|] == a;
  }

  /** Appending to a log can be regrouped. */
  lemma AppendAssoc(a: seq<Event>, b: seq<Event>, c: seq<Event>)
    ensures a + (b + c) == (a + b) + c
  {
  }

  /** Log extension is transitive. */
  lemma PrefixTrans(a: seq<Event>, b: seq<Event>, c: seq<Event>)
    requires a <= b && b <= c
    ensures a <= c
  {
    assert forall k :: 0 <= k < |a| ==> a[k] == b[k] == c[k];
  }
}
