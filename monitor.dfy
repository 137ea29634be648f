/**
 * `monitor_chat`: the polling loop that watches QQ's window list and Dock badge, writes one
 * event per newly opened chat window that passes the target filter and the already-replied
 * check, optionally pastes an automatic reply into it, and stops once enough replies were made.
 *
 * The per-poll logic is given as functions (`Handle`, `Process`, `Cycle`) with their
 * properties proved as lemmas; the class `Monitor` runs it with mutable state.
 */
module Monitor {
  import opened Wrappers
  import opened Text
  import opened WindowList
  import opened Keystroke
  import opened Desktop

  const WindowClosedError: string := "窗口已关闭"
  const DryRunNote: string := "dry_run"
  const ReservedNames: set<string> := {"", "QQ", "全网搜索"}

  /** The parameters of `monitor_chat`; an absent `target` or `auto_reply` is the empty text. */
  datatype Config = Config(target: string, autoReply: string, delay: real, jitter: real,
                           maxReplies: int, dryRun: bool)

  /** One line of the event file (the timestamp and the constant type field left aside). */
  datatype Event = Event(sender: string, replied: bool, replyMessage: Option<string>,
                         note: Option<string>, error: Option<string>)

  /**
   * What the adapters report while one window is answered: the sample drawn by
   * `random.uniform(-jitter, jitter)`, the window list enumerated after the delay, and the exit
   * statuses of the command-V and return key presses.
   */
  datatype ReplyOracle = ReplyOracle(sample: real, windows: seq<Window>, paste: ExitStatus, enter: ExitStatus)

  /** What one poll observes: whether QQ runs, its windows, its badge, and the reply adapters. */
  datatype Poll = Poll(running: bool, windows: seq<Window>, badge: int, reply: string -> ReplyOracle)

  /** The loop variables `known_windows`, `last_badge`, `reply_count` and `replied_windows`. */
  datatype MonitorState = MonitorState(known: set<string>, lastBadge: int, replyCount: nat, replied: set<string>)

  /** The state after some work, the events written and the actions taken, and whether the loop returned. */
  datatype Step = Step(state: MonitorState, events: seq<Event>, actions: seq<Action>, stopped: bool)

  /** One answered window: its event, the actions taken for it, and whether it counts as a reply. */
  datatype Attempted = Attempted(event: Event, actions: seq<Action>, counted: bool)

  // ---------------------------------------------------------------------------
  // Reply delay.

  function Max(a: real, b: real): real {
    if a >= b then a else b
  }

  function Abs(x: real): real {
    if x >= 0.0 then x else -x
  }

  /** `max(1, delay + u)` */
  function ReplyDelay(delay: real, u: real): (d: real)
    ensures d >= 1.0 && d >= delay + u
    ensures d == 1.0 || d == delay + u
  {
    Max(1.0, delay + u)
  }

  /**
   * With `u` drawn between `-jitter` and `jitter` (in either order, as `random.uniform` allows),
   * the delay lies between the delays of the two extreme samples.
   */
  lemma ReplyDelayBounds(delay: real, jitter: real, u: real)
    requires -Abs(jitter) <= u <= Abs(jitter)
    ensures Max(1.0, delay - Abs(jitter)) <= ReplyDelay(delay, u) <= Max(1.0, delay + Abs(jitter))
  {
  }

  /** With the defaults (`delay` 15, `jitter` 5) a reply waits between 10 and 20 seconds. */
  lemma DefaultReplyDelay(u: real)
    requires -5.0 <= u <= 5.0
    ensures 10.0 <= ReplyDelay(15.0, u) <= 20.0
  {
    ReplyDelayBounds(15.0, 5.0, u);
  }

  // ---------------------------------------------------------------------------
  // Change detection and filters.

  /** `set(current_windows.keys())`: the titles of the enumerated windows. */
  function Names(ws: seq<Window>): set<string> {
    set w | w in ws :: w.name
  }

  /** `current_names - known_windows - {"", "QQ", "全网搜索"}` */
  function NewWindows(current: set<string>, known: set<string>): (r: set<string>)
    ensures forall n :: n in r <==> n in current && n !in known && !IsReserved(n)
  {
    current - known - ReservedNames
  }

  /** With no target every window is of interest; otherwise those whose title contains it. */
  predicate Targeted(target: string, name: string) {
    target == "" || Contains(name, target)
  }

  predicate Passes(cfg: Config, replied: set<string>, name: string) {
    Targeted(cfg.target, name) && name !in replied
  }

  /** The window found by `for w in get_qq_windows(): if w["name"] == win_name: ... break`. */
  function FirstNamed(ws: seq<Window>, name: string): (r: Option<Window>)
    ensures r.Some? ==> r.value in ws && r.value.name == name
    ensures r.None? <==> name !in Names(ws)
    decreases |ws|
  {
    if ws == [] then None
    else if ws[0].name == name then Some(ws[0])
    else
      var r := FirstNamed(ws[1..], name);
      assert name in Names(ws[1..]) <==> name in Names(ws) by {
        assert forall w :: w in ws && w != ws[0] ==> w in ws[1..];
      }
      r
  }

  /** The event marks a paste that went through: a reply sent, or typed in a dry run. */
  predicate Pasted(e: Event) {
    e.replied || e.note == Some(DryRunNote)
  }

  // ---------------------------------------------------------------------------
  // One poll.

  /**
   * The body of the `for win_name in new_windows` loop once the filters let it through: the
   * event, and with an automatic reply the delay, activation, window lookup, raise, click, paste
   * and (outside a dry run) return.
   */
  function Attempt(cfg: Config, name: string, o: ReplyOracle): Attempted
  {
    var blank := Event(name, false, None, None, None);
    if cfg.autoReply == "" then Attempted(blank, [], false)
    else
      var waited := [Wait(ReplyDelay(cfg.delay, o.sample)), Activate];
      match FirstNamed(o.windows, name)
      case None => Attempted(blank.(error := Some(WindowClosedError)), waited, false)
      case Some(w) =>
        var typed := waited + [Raise(name), ClickInputArea(w.frame)] + PasteActions(cfg.autoReply);
        if Denied(o.paste) then Attempted(blank.(error := Some(NoPermissionError)), typed, false)
        else if cfg.dryRun then Attempted(blank.(note := Some(DryRunNote)), typed, true)
        else if Denied(o.enter) then
          Attempted(blank.(error := Some(NoPermissionError)), typed + [ReturnPress()], false)
        else
          Attempted(blank.(replied := true, replyMessage := Some(cfg.autoReply)), typed + [ReturnPress()], true)
  }

  /**
   * What one attempt writes and does: a counted reply is exactly one whose paste went through
   * (sent, or typed in a dry run); a dry run never presses return; a missing window is reported.
   */
  lemma AttemptFacts(cfg: Config, name: string, o: ReplyOracle)
    ensures var a := Attempt(cfg, name, o);
            && a.event.sender == name
            && (a.counted <==> cfg.autoReply != "" && a.event.error.None?)
            && (a.counted <==> Pasted(a.event))
            && (a.event.replied ==> !cfg.dryRun && a.event.replyMessage == Some(cfg.autoReply))
            && (cfg.dryRun ==> !a.event.replied && ReturnPress() !in a.actions)
            && (cfg.autoReply == "" ==> a.actions == [] && a.event == Event(name, false, None, None, None))
            && (a.counted ==> SetClipboard(cfg.autoReply) in a.actions && !Denied(o.paste))
            && (a.event.error == Some(WindowClosedError) <==> cfg.autoReply != "" && FirstNamed(o.windows, name).None?)
            && (a.event.replied <==> cfg.autoReply != "" && !cfg.dryRun && FirstNamed(o.windows, name).Some?
                                     && !Denied(o.paste) && !Denied(o.enter))
            && (ReturnPress() in a.actions <==> cfg.autoReply != "" && !cfg.dryRun
                                                && FirstNamed(o.windows, name).Some? && !Denied(o.paste))
            && (a.event.replied ==> a.actions != [] && a.actions[|a.actions| - 1] == ReturnPress())
  {
    if cfg.autoReply != "" && FirstNamed(o.windows, name).Some? {
      var w := FirstNamed(o.windows, name).value;
      var typed := [Wait(ReplyDelay(cfg.delay, o.sample)), Activate, Raise(name), ClickInputArea(w.frame)] + PasteActions(cfg.autoReply);
      assert SetClipboard(cfg.autoReply) == typed[4];
    }
  }

  /** `max_replies and reply_count >= max_replies` */
  predicate MustStop(cfg: Config, count: nat) {
    cfg.maxReplies != 0 && count >= cfg.maxReplies
  }

  /**
   * One new window: skipped by the filters, or answered, its event written, and the stop
   * condition checked.
   */
  function Handle(cfg: Config, st: MonitorState, name: string, o: ReplyOracle): Step {
    if !Passes(cfg, st.replied, name) then Step(st, [], [], false)
    else
      var a := Attempt(cfg, name, o);
      var next := if a.counted then st.(replyCount := st.replyCount + 1, replied := st.replied + {name}) else st;
      Step(next, [a.event], a.actions, MustStop(cfg, next.replyCount))
  }

  /** The new windows in the order given, until the loop returns. */
  function Process(cfg: Config, st: MonitorState, order: seq<string>, reply: string -> ReplyOracle): Step
    decreases |order|
  {
    if order == [] then Step(st, [], [], false)
    else
      var prev := Process(cfg, st, order[..|order| - 1], reply);
      if prev.stopped then prev
      else
        var name := order[|order| - 1];
        var h := Handle(cfg, prev.state, name, reply(name));
        Step(h.state, prev.events + h.events, prev.actions + h.actions, h.stopped)
  }

  lemma AppendAssoc<T>(a: seq<T>, b: seq<T>, c: seq<T>)
    ensures a + (b + c) == (a + b) + c
  {
  }

  /** One more name in the order: handled from where the others left off, unless they stopped. */
  lemma ProcessSnoc(cfg: Config, st: MonitorState, order: seq<string>, name: string, reply: string -> ReplyOracle)
    ensures var prev := Process(cfg, st, order, reply);
            var h := Handle(cfg, prev.state, name, reply(name));
            Process(cfg, st, order + [name], reply)
              == if prev.stopped then prev else Step(h.state, prev.events + h.events, prev.actions + h.actions, h.stopped)
  {
    assert (order + [name])[..|order|] == order;
  }

  /**
   * One pass of the `while True` loop, `order` being the order in which the set of new windows
   * is enumerated.
   */
  function Cycle(cfg: Config, st: MonitorState, poll: Poll, order: seq<string>): Step {
    if !poll.running then Step(st, [], [], false)
    else
      var current := Names(poll.windows);
      var increased := poll.badge > st.lastBadge;
      if NewWindows(current, st.known) == {} && !increased then
        Step(st.(known := current, lastBadge := poll.badge), [], [], false)
      else
        var start := if increased then st.(lastBadge := poll.badge) else st;
        var p := Process(cfg, start, order, poll.reply);
        if p.stopped then p
        else Step(p.state.(known := current, lastBadge := poll.badge), p.events, p.actions, false)
  }

  predicate Distinct(order: seq<string>) {
    forall i, j :: 0 <= i < j < |order| ==> order[i] != order[j]
  }

  /** An enumeration order of a set: each element once. */
  predicate Enumerates(order: seq<string>, s: set<string>) {
    Distinct(order)
    && (forall n :: n in s ==> n in order) && (forall k :: 0 <= k < |order| ==> order[k] in s)
  }

  // ---------------------------------------------------------------------------
  // Properties of one window.

  lemma HandleFacts(cfg: Config, st: MonitorState, name: string, o: ReplyOracle)
    ensures var h := Handle(cfg, st, name, o);
            && h.state.known == st.known && h.state.lastBadge == st.lastBadge
            && |h.events| <= 1
            && (h.events != [] <==> Passes(cfg, st.replied, name))
            && (forall e :: e in h.events ==> e.sender == name)
            && (h.state.replied == if h.events != [] && Pasted(h.events[0]) then st.replied + {name} else st.replied)
            && h.state.replyCount == st.replyCount + |h.state.replied - st.replied|
            && (h.stopped ==> h.events != [] && MustStop(cfg, h.state.replyCount))
            && (h.state.replyCount <= st.replyCount + 1)
            && (h.events != [] ==> h.stopped == MustStop(cfg, h.state.replyCount))
            && (cfg.dryRun ==> ReturnPress() !in h.actions && forall e :: e in h.events ==> !e.replied)
  {
    var h := Handle(cfg, st, name, o);
    if Passes(cfg, st.replied, name) {
      AttemptFacts(cfg, name, o);
      var a := Attempt(cfg, name, o);
      if a.counted {
        assert h.state.replied - st.replied == {name};
      } else {
        assert h.state.replied - st.replied == {};
      }
    } else {
      assert h.state.replied - st.replied == {};
    }
  }

  /** The event written for one new window, if any, is for that window and only when it passes the filters. */
  lemma HandleEvent(cfg: Config, st: MonitorState, name: string, o: ReplyOracle)
    ensures var h := Handle(cfg, st, name, o);
            |h.events| <= 1 && (h.events != [] ==> h.events[0].sender == name && Passes(cfg, st.replied, name))
  {
  }

  // ---------------------------------------------------------------------------
  // Properties of a run over the new windows.

  /**
   * Working through new windows leaves `known_windows` and `last_badge` alone, only adds
   * names from the order to `replied_windows`, counts one reply per added name, writes at most
   * one event per name, and returns only right after an event that met the stop condition.
   */
  lemma {:induction false} ProcessFrame(cfg: Config, st: MonitorState, order: seq<string>, reply: string -> ReplyOracle)
    ensures var p := Process(cfg, st, order, reply);
            && p.state.known == st.known && p.state.lastBadge == st.lastBadge
            && st.replied <= p.state.replied
            && (forall n :: n in p.state.replied && n !in st.replied ==> n in order)
            && p.state.replyCount == st.replyCount + |p.state.replied - st.replied|
            && |p.events| <= |order|
            && (p.stopped ==> p.events != [] && MustStop(cfg, p.state.replyCount))
    decreases |order|
  {
    if order != [] {
      var init := order[..|order| - 1];
      ProcessFrame(cfg, st, init, reply);
      var prev := Process(cfg, st, init, reply);
      if !prev.stopped {
        var name := order[|order| - 1];
        HandleFacts(cfg, prev.state, name, reply(name));
        var h := Handle(cfg, prev.state, name, reply(name));
        assert h.state.replied - st.replied == (prev.state.replied - st.replied) + (h.state.replied - prev.state.replied);
        assert (prev.state.replied - st.replied) !! (h.state.replied - prev.state.replied);
        forall n | n in h.state.replied && n !in st.replied ensures n in order {
          if n in prev.state.replied {
            assert n in init;
          }
        }
      }
    }
  }

  /** Every event is for a name of the order that passes the target filter and had not been replied to. */
  lemma {:induction false} ProcessEvents(cfg: Config, st: MonitorState, order: seq<string>, reply: string -> ReplyOracle)
    ensures var p := Process(cfg, st, order, reply);
            forall k :: 0 <= k < |p.events| ==>
              p.events[k].sender in order && Targeted(cfg.target, p.events[k].sender) && p.events[k].sender !in st.replied
    decreases |order|
  {
    if order != [] {
      var init := order[..|order| - 1];
      ProcessEvents(cfg, st, init, reply);
      ProcessFrame(cfg, st, init, reply);
      var prev := Process(cfg, st, init, reply);
      if !prev.stopped {
        var name := order[|order| - 1];
        HandleEvent(cfg, prev.state, name, reply(name));
        var h := Handle(cfg, prev.state, name, reply(name));
        var p := Process(cfg, st, order, reply);
        forall k | 0 <= k < |p.events|
          ensures p.events[k].sender in order && Targeted(cfg.target, p.events[k].sender) && p.events[k].sender !in st.replied
        {
          if k < |prev.events| {
            assert p.events[k] == prev.events[k];
            assert prev.events[k].sender in init;
          } else {
            assert p.events[k] == h.events[0];
          }
        }
      }
    }
  }

  /** In a dry run no event says `replied` and the return key is never pressed. */
  lemma {:induction false} ProcessDryRun(cfg: Config, st: MonitorState, order: seq<string>, reply: string -> ReplyOracle)
    requires cfg.dryRun
    ensures var p := Process(cfg, st, order, reply);
            ReturnPress() !in p.actions && forall k :: 0 <= k < |p.events| ==> !p.events[k].replied
    decreases |order|
  {
    if order != [] {
      var init := order[..|order| - 1];
      ProcessDryRun(cfg, st, init, reply);
      var prev := Process(cfg, st, init, reply);
      if !prev.stopped {
        var name := order[|order| - 1];
        HandleFacts(cfg, prev.state, name, reply(name));
        var h := Handle(cfg, prev.state, name, reply(name));
        var p := Process(cfg, st, order, reply);
        forall k | 0 <= k < |p.events| ensures !p.events[k].replied {
          if k < |prev.events| {
            assert p.events[k] == prev.events[k];
          } else {
            assert p.events[k] == h.events[k - |prev.events|];
          }
        }
      }
    }
  }

  /**
   * With a positive `max_replies` not yet reached, the count never passes it, and the loop
   * returns exactly when the count reaches it.
   */
  lemma {:induction false} ProcessBudget(cfg: Config, st: MonitorState, order: seq<string>, reply: string -> ReplyOracle)
    requires cfg.maxReplies > 0 && st.replyCount < cfg.maxReplies
    ensures var p := Process(cfg, st, order, reply);
            p.state.replyCount <= cfg.maxReplies && (p.stopped <==> p.state.replyCount == cfg.maxReplies)
    decreases |order|
  {
    if order != [] {
      var init := order[..|order| - 1];
      ProcessBudget(cfg, st, init, reply);
      var prev := Process(cfg, st, init, reply);
      if !prev.stopped {
        var name := order[|order| - 1];
        HandleFacts(cfg, prev.state, name, reply(name));
      }
    }
  }

  /** Once the loop has returned, the names that were still to come make no difference. */
  lemma {:induction false} ProcessStoppedExtension(cfg: Config, st: MonitorState, order: seq<string>,
                                                   more: seq<string>, reply: string -> ReplyOracle)
    requires Process(cfg, st, order, reply).stopped
    ensures Process(cfg, st, order + more, reply) == Process(cfg, st, order, reply)
    decreases |more|
  {
    if more == [] {
      assert order + more == order;
    } else {
      var init := more[..|more| - 1];
      ProcessStoppedExtension(cfg, st, order, init, reply);
      assert (order + more)[..|order + more| - 1] == order + init;
    }
  }

  /** A run stopped by a negative `max_replies` stops at its first event. */
  lemma {:induction false} NegativeLimitStopsAtFirstEvent(cfg: Config, st: MonitorState, order: seq<string>,
                                                          reply: string -> ReplyOracle)
    requires cfg.maxReplies < 0
    ensures var p := Process(cfg, st, order, reply);
            |p.events| <= 1 && (p.events != [] <==> p.stopped)
    decreases |order|
  {
    if order != [] {
      var init := order[..|order| - 1];
      NegativeLimitStopsAtFirstEvent(cfg, st, init, reply);
      var prev := Process(cfg, st, init, reply);
      if !prev.stopped {
        var name := order[|order| - 1];
        HandleEvent(cfg, prev.state, name, reply(name));
      }
    }
  }

  // ---------------------------------------------------------------------------
  // Which windows get an event.

  function Senders(events: seq<Event>): (r: seq<string>)
    ensures |r| == |events|
    decreases |events|
  {
    if events == [] then [] else Senders(events[..|events| - 1]) + [events[|events| - 1].sender]
  }

  lemma {:induction false} SendersAppend(a: seq<Event>, b: seq<Event>)
    ensures Senders(a + b) == Senders(a) + Senders(b)
    decreases |b|
  {
    if b == [] {
      assert a + b == a;
    } else {
      SendersAppend(a, b[..|b| - 1]);
      assert (a + b)[..|a + b| - 1] == a + b[..|b| - 1];
    }
  }

  /** The reference answer: the names of the order that pass the filters against `replied`, in order. */
  function Wanted(cfg: Config, replied: set<string>, order: seq<string>): (r: seq<string>)
    ensures |r| <= |order|
    decreases |order|
  {
    if order == [] then []
    else
      var name := order[|order| - 1];
      Wanted(cfg, replied, order[..|order| - 1]) + (if Passes(cfg, replied, name) then [name] else [])
  }

  /** A name is wanted exactly when it is in the order and passes the filters; no name twice. */
  lemma {:induction false} WantedSpec(cfg: Config, replied: set<string>, order: seq<string>)
    ensures forall n :: n in Wanted(cfg, replied, order) <==> n in order && Passes(cfg, replied, n)
    ensures Distinct(order) ==> Distinct(Wanted(cfg, replied, order))
    decreases |order|
  {
    if order != [] {
      var init, name := order[..|order| - 1], order[|order| - 1];
      WantedSpec(cfg, replied, init);
      assert order == init + [name];
      var w := Wanted(cfg, replied, init);
      if Distinct(order) {
        assert name !in init;
        var r := Wanted(cfg, replied, order);
        forall i, j | 0 <= i < j < |r| ensures r[i] != r[j] {
          if j >= |w| {
            assert r[j] == name;
            assert r[i] == w[i];
          } else {
            assert r[i] == w[i] && r[j] == w[j];
          }
        }
      }
    }
  }

  /**
   * Over a duplicate-free order the events are written for the wanted names, in order; all of
   * them when the loop did not return early, a first part of them when it did.
   */
  lemma {:induction false} ProcessSenders(cfg: Config, st: MonitorState, order: seq<string>, reply: string -> ReplyOracle)
    requires Distinct(order)
    ensures var p := Process(cfg, st, order, reply);
            && Senders(p.events) <= Wanted(cfg, st.replied, order)
            && (!p.stopped ==> Senders(p.events) == Wanted(cfg, st.replied, order))
    decreases |order|
  {
    if order != [] {
      var init, name := order[..|order| - 1], order[|order| - 1];
      assert Distinct(init);
      ProcessSenders(cfg, st, init, reply);
      var prev := Process(cfg, st, init, reply);
      if !prev.stopped {
        ProcessFrame(cfg, st, init, reply);
        assert name !in init;
        assert name in prev.state.replied <==> name in st.replied;
        var h := Handle(cfg, prev.state, name, reply(name));
        HandleEvent(cfg, prev.state, name, reply(name));
        SendersAppend(prev.events, h.events);
        if h.events != [] {
          assert Senders(h.events) == [name] by {
            assert h.events[..0] == [];
          }
        }
      }
    }
  }

  // ---------------------------------------------------------------------------
  // The session invariant: each name is pasted to at most once, and counted once.

  function PastedSenders(events: seq<Event>): set<string> {
    set k | 0 <= k < |events| && Pasted(events[k]) :: events[k].sender
  }

  predicate PastedOnce(events: seq<Event>) {
    forall i, j :: 0 <= i < j < |events| && Pasted(events[i]) && Pasted(events[j]) ==> events[i].sender != events[j].sender
  }

  /**
   * `replied_windows` is the set of names an event records a paste for, no name has two such
   * events, and `reply_count` is the number of those names.
   */
  predicate Inv(st: MonitorState, events: seq<Event>) {
    st.replied == PastedSenders(events) && PastedOnce(events) && st.replyCount == |st.replied|
  }

  lemma PastedSendersAppend(events: seq<Event>, e: Event)
    ensures PastedSenders(events + [e]) == PastedSenders(events) + (if Pasted(e) then {e.sender} else {})
  {
    var all := events + [e];
    forall n | n in PastedSenders(all) ensures n in PastedSenders(events) + (if Pasted(e) then {e.sender} else {}) {
      var k :| 0 <= k < |all| && Pasted(all[k]) && all[k].sender == n;
      if k < |events| {
        assert all[k] == events[k];
      }
    }
    forall n | n in PastedSenders(events) ensures n in PastedSenders(all) {
      var k :| 0 <= k < |events| && Pasted(events[k]) && events[k].sender == n;
      assert all[k] == events[k];
    }
    if Pasted(e) {
      assert all[|events|] == e;
    }
  }

  /** Writing one more event keeps the invariant when a paste is counted once, for a new name. */
  lemma EventKeepsInv(st: MonitorState, events: seq<Event>, e: Event, next: MonitorState)
    requires Inv(st, events)
    requires Pasted(e) ==> e.sender !in st.replied
    requires next.replied == (if Pasted(e) then st.replied + {e.sender} else st.replied)
    requires next.replyCount == (if Pasted(e) then st.replyCount + 1 else st.replyCount)
    ensures Inv(next, events + [e])
  {
    PastedSendersAppend(events, e);
    var all := events + [e];
    if Pasted(e) {
      forall i | 0 <= i < |events| && Pasted(all[i]) ensures all[i].sender != e.sender {
        assert all[i] == events[i];
        assert events[i].sender in PastedSenders(events);
      }
      assert |st.replied + {e.sender}| == |st.replied| + 1;
    }
    forall i, j | 0 <= i < j < |all| && Pasted(all[i]) && Pasted(all[j]) ensures all[i].sender != all[j].sender {
      if j < |events| {
        assert all[i] == events[i] && all[j] == events[j];
      }
    }
  }

  lemma HandleKeepsInv(cfg: Config, st: MonitorState, name: string, o: ReplyOracle, events: seq<Event>)
    requires Inv(st, events)
    ensures var h := Handle(cfg, st, name, o); Inv(h.state, events + h.events)
  {
    var h := Handle(cfg, st, name, o);
    HandleFacts(cfg, st, name, o);
    if h.events == [] {
      assert events + h.events == events;
    } else {
      var e := h.events[0];
      assert h.events == [e];
      EventKeepsInv(st, events, e, h.state);
    }
  }

  lemma {:induction false} ProcessKeepsInv(cfg: Config, st: MonitorState, order: seq<string>,
                                           reply: string -> ReplyOracle, events: seq<Event>)
    requires Inv(st, events)
    ensures var p := Process(cfg, st, order, reply); Inv(p.state, events + p.events)
    decreases |order|
  {
    if order == [] {
      assert events + [] == events;
    } else {
      var init, name := order[..|order| - 1], order[|order| - 1];
      ProcessKeepsInv(cfg, st, init, reply, events);
      var prev := Process(cfg, st, init, reply);
      if !prev.stopped {
        var h := Handle(cfg, prev.state, name, reply(name));
        HandleKeepsInv(cfg, prev.state, name, reply(name), events + prev.events);
        assert events + (prev.events + h.events) == events + prev.events + h.events;
      }
    }
  }

  // ---------------------------------------------------------------------------
  // Properties of one poll, for every enumeration order of the new windows.

  /** While QQ is not running a poll changes nothing, writes nothing and does nothing. */
  lemma CycleNotRunning(cfg: Config, st: MonitorState, poll: Poll, order: seq<string>)
    requires !poll.running
    ensures Cycle(cfg, st, poll, order) == Step(st, [], [], false)
  {
  }

  /**
   * A poll that does not end the loop leaves `known_windows` equal to the current titles and
   * `last_badge` equal to the current badge, whatever the replies did; one that ends it returns
   * before `known_windows` is updated, right after an event that met the stop condition.
   */
  lemma CycleRefresh(cfg: Config, st: MonitorState, poll: Poll, order: seq<string>)
    requires poll.running
    ensures var r := Cycle(cfg, st, poll, order);
            && (!r.stopped ==> r.state.known == Names(poll.windows) && r.state.lastBadge == poll.badge)
            && (r.stopped ==> r.state.known == st.known && r.events != [] && MustStop(cfg, r.state.replyCount))
            && (r.stopped ==> r.state.lastBadge == (if poll.badge > st.lastBadge then poll.badge else st.lastBadge))
  {
    var increased := poll.badge > st.lastBadge;
    var start := if increased then st.(lastBadge := poll.badge) else st;
    ProcessFrame(cfg, start, order, poll.reply);
  }

  /** A badge increase without a new window writes no event, takes no action and only refreshes. */
  lemma CycleBadgeOnly(cfg: Config, st: MonitorState, poll: Poll, order: seq<string>)
    requires poll.running
    requires NewWindows(Names(poll.windows), st.known) == {}
    requires Enumerates(order, NewWindows(Names(poll.windows), st.known))
    ensures Cycle(cfg, st, poll, order) == Step(st.(known := Names(poll.windows), lastBadge := poll.badge), [], [], false)
  {
  }

  /**
   * Exactly one event per new window that passes the target filter and has not been replied
   * to, in the enumeration order (a first part of them when the loop returns early); the events
   * are for distinct names outside the old `replied_windows`.
   */
  lemma CycleEvents(cfg: Config, st: MonitorState, poll: Poll, order: seq<string>)
    requires poll.running
    requires Enumerates(order, NewWindows(Names(poll.windows), st.known))
    ensures var r := Cycle(cfg, st, poll, order);
            var newNames := NewWindows(Names(poll.windows), st.known);
            && Senders(r.events) <= Wanted(cfg, st.replied, order)
            && (!r.stopped ==> Senders(r.events) == Wanted(cfg, st.replied, order))
            && Distinct(Senders(r.events))
            && (forall k :: 0 <= k < |r.events| ==> r.events[k].sender in newNames && Passes(cfg, st.replied, r.events[k].sender))
  {
    var r := Cycle(cfg, st, poll, order);
    var increased := poll.badge > st.lastBadge;
    var start := if increased then st.(lastBadge := poll.badge) else st;
    var newNames := NewWindows(Names(poll.windows), st.known);
    if newNames == {} && !increased {
      assert r.events == [];
    } else {
      ProcessSenders(cfg, start, order, poll.reply);
      ProcessEvents(cfg, start, order, poll.reply);
      WantedSpec(cfg, st.replied, order);
      PrefixDistinct(Senders(r.events), Wanted(cfg, st.replied, order));
    }
  }

  lemma PrefixDistinct(a: seq<string>, b: seq<string>)
    requires a <= b && Distinct(b)
    ensures Distinct(a)
  {
    assert a == b[..|a|];
    forall i, j | 0 <= i < j < |a| ensures a[i] != a[j] {
      assert a[i] == b[i] && a[j] == b[j];
    }
  }

  /** In a dry run no event of a poll says `replied` and the return key is never pressed. */
  lemma CycleDryRun(cfg: Config, st: MonitorState, poll: Poll, order: seq<string>)
    requires cfg.dryRun
    ensures var r := Cycle(cfg, st, poll, order);
            ReturnPress() !in r.actions && forall k :: 0 <= k < |r.events| ==> !r.events[k].replied
  {
    var start := if poll.badge > st.lastBadge then st.(lastBadge := poll.badge) else st;
    ProcessDryRun(cfg, start, order, poll.reply);
  }

  /**
   * `replied_windows` only grows, and only by new windows of this poll; `reply_count` grows by
   * the number of names added; with `max_replies` 0 the loop never returns.
   */
  lemma CycleReplied(cfg: Config, st: MonitorState, poll: Poll, order: seq<string>)
    requires poll.running ==> forall k :: 0 <= k < |order| ==> order[k] in NewWindows(Names(poll.windows), st.known)
    ensures var r := Cycle(cfg, st, poll, order);
            && st.replied <= r.state.replied
            && (forall n :: n in r.state.replied && n !in st.replied ==> n in NewWindows(Names(poll.windows), st.known))
            && r.state.replyCount == st.replyCount + |r.state.replied - st.replied|
            && (cfg.maxReplies == 0 ==> !r.stopped)
  {
    var start := if poll.badge > st.lastBadge then st.(lastBadge := poll.badge) else st;
    ProcessFrame(cfg, start, order, poll.reply);
  }

  /**
   * With a positive `max_replies` not yet reached, one poll never takes the count past it, and
   * the loop returns exactly when the count reaches it.
   */
  lemma CycleBudget(cfg: Config, st: MonitorState, poll: Poll, order: seq<string>)
    requires cfg.maxReplies > 0 && st.replyCount < cfg.maxReplies
    ensures var r := Cycle(cfg, st, poll, order);
            r.state.replyCount <= cfg.maxReplies && (r.stopped <==> r.state.replyCount == cfg.maxReplies)
  {
    var start := if poll.badge > st.lastBadge then st.(lastBadge := poll.badge) else st;
    ProcessBudget(cfg, start, order, poll.reply);
  }

  /** A poll keeps the session invariant, whatever the order. */
  lemma CycleKeepsInv(cfg: Config, st: MonitorState, poll: Poll, order: seq<string>, events: seq<Event>)
    requires Inv(st, events)
    ensures var r := Cycle(cfg, st, poll, order); Inv(r.state, events + r.events)
  {
    var start := if poll.badge > st.lastBadge then st.(lastBadge := poll.badge) else st;
    ProcessKeepsInv(cfg, start, order, poll.reply, events);
    assert events + [] == events;
  }

  // ---------------------------------------------------------------------------
  // A whole session.

  /**
   * An order in which one pass can take its new windows: each at most once, only new windows,
   * all of them unless the loop returned, and none while QQ is not running.
   */
  predicate PollOrder(cfg: Config, st: MonitorState, poll: Poll, order: seq<string>) {
    var newNames := NewWindows(Names(poll.windows), st.known);
    && Distinct(order)
    && (poll.running ==> forall k :: 0 <= k < |order| ==> order[k] in newNames)
    && (poll.running && !Cycle(cfg, st, poll, order).stopped ==> Enumerates(order, newNames))
    && (!poll.running ==> order == [])
  }

  /** In a pass taken in such an order, every event is for a new window of that pass. */
  lemma CycleSenders(cfg: Config, st: MonitorState, poll: Poll, order: seq<string>)
    requires PollOrder(cfg, st, poll, order)
    ensures var r := Cycle(cfg, st, poll, order);
            forall k :: 0 <= k < |r.events| ==> r.events[k].sender in NewWindows(Names(poll.windows), st.known)
  {
    if poll.running {
      var start := if poll.badge > st.lastBadge then st.(lastBadge := poll.badge) else st;
      var r := Cycle(cfg, st, poll, order);
      if NewWindows(Names(poll.windows), st.known) != {} || poll.badge > st.lastBadge {
        var p := Process(cfg, start, order, poll.reply);
        SendersInOrder(cfg, start, order, poll.reply);
        assert r.events == p.events;
        forall k | 0 <= k < |r.events|
          ensures r.events[k].sender in NewWindows(Names(poll.windows), st.known)
        {
          var i :| 0 <= i < |order| && order[i] == p.events[k].sender;
        }
      }
    }
  }

  lemma SendersInOrder(cfg: Config, st: MonitorState, order: seq<string>, reply: string -> ReplyOracle)
    ensures forall k :: 0 <= k < |Process(cfg, st, order, reply).events| ==>
              Process(cfg, st, order, reply).events[k].sender in order
  {
    ProcessEvents(cfg, st, order, reply);
  }

  /** `monitor_chat` over a sequence of polls: one `Cycle` per poll, in order, until the loop returns. */
  function Session(cfg: Config, st: MonitorState, polls: seq<Poll>, orders: seq<seq<string>>): Step
    requires |orders| == |polls|
    decreases |polls|
  {
    if polls == [] then Step(st, [], [], false)
    else
      var n := |polls| - 1;
      var prev := Session(cfg, st, polls[..n], orders[..n]);
      if prev.stopped then prev
      else
        var c := Cycle(cfg, prev.state, polls[n], orders[n]);
        Step(c.state, prev.events + c.events, prev.actions + c.actions, c.stopped)
  }

  /** One more poll: a pass from where the earlier ones left off, unless the loop already returned. */
  lemma SessionSnoc(cfg: Config, st: MonitorState, polls: seq<Poll>, orders: seq<seq<string>>,
                    poll: Poll, order: seq<string>)
    requires |orders| == |polls|
    ensures var prev := Session(cfg, st, polls, orders);
            var c := Cycle(cfg, prev.state, poll, order);
            Session(cfg, st, polls + [poll], orders + [order])
              == if prev.stopped then prev else Step(c.state, prev.events + c.events, prev.actions + c.actions, c.stopped)
  {
    assert (polls + [poll])[..|polls|] == polls;
    assert (orders + [order])[..|orders|] == orders;
  }

  /** Every poll of the session is taken in an order its pass can take, from where the earlier polls left off. */
  predicate SessionOrders(cfg: Config, st: MonitorState, polls: seq<Poll>, orders: seq<seq<string>>)
    requires |orders| == |polls|
    decreases |polls|
  {
    polls == [] ||
    var n := |polls| - 1;
    SessionOrders(cfg, st, polls[..n], orders[..n]) && PollOrder(cfg, Session(cfg, st, polls[..n], orders[..n]).state, polls[n], orders[n])
  }

  lemma SessionOrdersSnoc(cfg: Config, st: MonitorState, polls: seq<Poll>, orders: seq<seq<string>>,
                          poll: Poll, order: seq<string>)
    requires |orders| == |polls|
    ensures SessionOrders(cfg, st, polls + [poll], orders + [order])
            <==> (SessionOrders(cfg, st, polls, orders) && PollOrder(cfg, Session(cfg, st, polls, orders).state, poll, order))
  {
    assert (polls + [poll])[..|polls|] == polls;
    assert (orders + [order])[..|orders|] == orders;
  }

  /** Poll `k` of such a session is taken in an order its pass can take from the state the first `k` polls leave. */
  lemma {:induction false} SessionOrdersAt(cfg: Config, st: MonitorState, polls: seq<Poll>, orders: seq<seq<string>>, k: nat)
    requires |orders| == |polls| && SessionOrders(cfg, st, polls, orders) && k < |polls|
    ensures PollOrder(cfg, Session(cfg, st, polls[..k], orders[..k]).state, polls[k], orders[k])
    decreases |polls|
  {
    var n := |polls| - 1;
    if k < n {
      SessionOrdersAt(cfg, st, polls[..n], orders[..n], k);
      assert polls[..n][..k] == polls[..k] && orders[..n][..k] == orders[..k];
    }
  }

  /** The titles of the windows enumerated in any of the polls. */
  function SeenTitles(polls: seq<Poll>): set<string>
    decreases |polls|
  {
    if polls == [] then {} else SeenTitles(polls[..|polls| - 1]) + Names(polls[|polls| - 1].windows)
  }

  /** Every event is for one of `titles`, and none for `""`, `"QQ"` or `"全网搜索"`. */
  predicate SentToTitles(events: seq<Event>, titles: set<string>) {
    forall k :: 0 <= k < |events| ==> events[k].sender in titles && !IsReserved(events[k].sender)
  }

  lemma NewSendersAreTitles(events: seq<Event>, current: set<string>, known: set<string>)
    requires forall k :: 0 <= k < |events| ==> events[k].sender in NewWindows(current, known)
    ensures SentToTitles(events, current)
  {
  }

  lemma SentToTitlesAppend(a: seq<Event>, b: seq<Event>, ta: set<string>, tb: set<string>)
    requires SentToTitles(a, ta) && SentToTitles(b, tb)
    ensures SentToTitles(a + b, ta + tb)
  {
    forall k | 0 <= k < |a + b|
      ensures (a + b)[k].sender in ta + tb && !IsReserved((a + b)[k].sender)
    {
      if k >= |a| {
        assert (a + b)[k] == b[k - |a|];
      }
    }
  }

  /**
   * Over orders its passes can take, every event of a session is for a title some poll
   * enumerated, and never for `""`, `"QQ"` or `"全网搜索"`.
   */
  lemma {:induction false} SessionSenders(cfg: Config, st: MonitorState, polls: seq<Poll>, orders: seq<seq<string>>)
    requires |orders| == |polls| && SessionOrders(cfg, st, polls, orders)
    ensures SentToTitles(Session(cfg, st, polls, orders).events, SeenTitles(polls))
    decreases |polls|
  {
    if polls != [] {
      var n := |polls| - 1;
      SessionSenders(cfg, st, polls[..n], orders[..n]);
      var prev := Session(cfg, st, polls[..n], orders[..n]);
      SentToTitlesAppend(prev.events, [], SeenTitles(polls[..n]), Names(polls[n].windows));
      assert prev.events + [] == prev.events;
      if !prev.stopped {
        var c := Cycle(cfg, prev.state, polls[n], orders[n]);
        CycleSenders(cfg, prev.state, polls[n], orders[n]);
        NewSendersAreTitles(c.events, Names(polls[n].windows), prev.state.known);
        SentToTitlesAppend(prev.events, c.events, SeenTitles(polls[..n]), Names(polls[n].windows));
      }
    }
  }

  /** A whole session keeps the invariant: no name is pasted to twice, and the count is the number of names. */
  lemma {:induction false} SessionKeepsInv(cfg: Config, st: MonitorState, polls: seq<Poll>, orders: seq<seq<string>>,
                                           events: seq<Event>)
    requires |orders| == |polls| && Inv(st, events)
    ensures var s := Session(cfg, st, polls, orders); Inv(s.state, events + s.events)
    decreases |polls|
  {
    if polls != [] {
      var n := |polls| - 1;
      SessionKeepsInv(cfg, st, polls[..n], orders[..n], events);
      var prev := Session(cfg, st, polls[..n], orders[..n]);
      if !prev.stopped {
        var c := Cycle(cfg, prev.state, polls[n], orders[n]);
        CycleKeepsInv(cfg, prev.state, polls[n], orders[n], events + prev.events);
        AppendAssoc(events, prev.events, c.events);
      }
    } else {
      assert events + [] == events;
    }
  }

  /**
   * With a positive `max_replies` not yet reached, a session never takes the count past it,
   * and the loop returns exactly when the count reaches it.
   */
  lemma {:induction false} SessionBudget(cfg: Config, st: MonitorState, polls: seq<Poll>, orders: seq<seq<string>>)
    requires |orders| == |polls| && cfg.maxReplies > 0 && st.replyCount < cfg.maxReplies
    ensures var s := Session(cfg, st, polls, orders);
            s.state.replyCount <= cfg.maxReplies && (s.stopped <==> s.state.replyCount == cfg.maxReplies)
    decreases |polls|
  {
    if polls != [] {
      var n := |polls| - 1;
      SessionBudget(cfg, st, polls[..n], orders[..n]);
      var prev := Session(cfg, st, polls[..n], orders[..n]);
      if !prev.stopped {
        CycleBudget(cfg, prev.state, polls[n], orders[n]);
      }
    }
  }

  // ---------------------------------------------------------------------------
  // The running monitor.

  /** The loop of `get_qq_windows()` that looks for the window of `name`, stopping at the first. */
  method FindNamed(ws: seq<Window>, name: string) returns (r: Option<Window>)
    ensures r == FirstNamed(ws, name)
  {
    var i := 0;
    while i < |ws|
      invariant 0 <= i <= |ws|
      invariant FirstNamed(ws, name) == FirstNamed(ws[i..], name)
    {
      if ws[i].name == name {
        return Some(ws[i]);
      }
      assert ws[i..][1..] == ws[i + 1..];
      i := i + 1;
    }
    return None;
  }

  class Monitor {
    const cfg: Config
    /** `known_windows` */
    var known: set<string>
    /** `last_badge` */
    var lastBadge: int
    /** `reply_count` */
    var replyCount: nat
    /** `replied_windows` */
    var replied: set<string>
    /** The lines appended to the event file, oldest first. */
    var events: seq<Event>
    /** The user-interface actions taken, oldest first. */
    var actions: seq<Action>
    /** Whether `monitor_chat` has returned. */
    var stopped: bool

    function State(): MonitorState
      reads this
    {
      MonitorState(known, lastBadge, replyCount, replied)
    }

    /**
     * The session invariant, and the reply budget: with a positive `max_replies` the count
     * stays below it while the monitor runs and is never above it.
     */
    ghost predicate Valid()
      reads this
    {
      && Inv(State(), events)
      && (cfg.maxReplies > 0 ==> replyCount <= cfg.maxReplies)
      && (cfg.maxReplies > 0 && !stopped ==> replyCount < cfg.maxReplies)
    }

    /** The set-up of `monitor_chat`: the titles and the badge observed before the first poll. */
    constructor(config: Config, initial: seq<Window>, badge: int)
      ensures Valid() && cfg == config
      ensures State() == MonitorState(Names(initial), badge, 0, {})
      ensures events == [] && actions == [] && !stopped
    {
      cfg := config;
      known := Names(initial);
      lastBadge := badge;
      replyCount := 0;
      replied := {};
      events := [];
      actions := [];
      stopped := false;
    }

    /** The reply attempt for one window, step by step, as the body of the loop performs it. */
    method AttemptReply(name: string, o: ReplyOracle) returns (event: Event, acts: seq<Action>, counted: bool)
      ensures Attempted(event, acts, counted) == Attempt(cfg, name, o)
    {
      event := Event(name, false, None, None, None);
      acts := [];
      counted := false;
      if cfg.autoReply == "" {
        return;
      }
      acts := [Wait(ReplyDelay(cfg.delay, o.sample)), Activate];
      var chat := FindNamed(o.windows, name);
      if chat.None? {
        event := event.(error := Some(WindowClosedError));
        return;
      }
      acts := acts + [Raise(name), ClickInputArea(chat.value.frame)] + PasteActions(cfg.autoReply);
      if Denied(o.paste) {
        event := event.(error := Some(NoPermissionError));
      } else if cfg.dryRun {
        event := event.(note := Some(DryRunNote));
        counted := true;
      } else {
        acts := acts + [ReturnPress()];
        if Denied(o.enter) {
          event := event.(error := Some(NoPermissionError));
        } else {
          event := event.(replied := true, replyMessage := Some(cfg.autoReply));
          counted := true;
        }
      }
    }

    /** One new window: the filters, the attempt, the event written, the stop check. */
    method HandleWindow(name: string, o: ReplyOracle)
      modifies this
      ensures var h := Handle(cfg, old(State()), name, o);
              && State() == h.state && stopped == h.stopped
              && events == old(events) + h.events && actions == old(actions) + h.actions
    {
      if !Targeted(cfg.target, name) || name in replied {
        stopped := false;
        return;
      }
      var event, acts, counted := AttemptReply(name, o);
      actions := actions + acts;
      if counted {
        replied := replied + {name};
        replyCount := replyCount + 1;
      }
      events := events + [event];
      stopped := MustStop(cfg, replyCount);
    }

    /**
     * The `for win_name in new_windows` loop: the pending names are taken in an order the set
     * chooses, reported in `order`, until none is left or the loop returns.
     */
    method ProcessPending(pending: set<string>, reply: string -> ReplyOracle) returns (order: seq<string>)
      requires !stopped
      modifies this
      ensures Tracks(old(State()), old(events), old(actions), order, reply)
      ensures Distinct(order) && forall k :: 0 <= k < |order| ==> order[k] in pending
      ensures !stopped ==> Enumerates(order, pending)
    {
      ghost var start, ev0, act0 := State(), events, actions;
      var left := pending;
      order := [];
      while left != {} && !stopped
        invariant left <= pending
        invariant Distinct(order)
        invariant forall k :: 0 <= k < |order| ==> order[k] in pending && order[k] !in left
        invariant forall n :: n in pending ==> n in left || n in order
        invariant Tracks(start, ev0, act0, order, reply)
        decreases |left|
      {
        var name :| name in left;
        TakeOne(name, start, ev0, act0, order, reply);
        order := order + [name];
        left := left - {name};
      }
    }

    /** The fields are where working through `order` from `start` leaves them. */
    ghost predicate Tracks(start: MonitorState, ev0: seq<Event>, act0: seq<Action>, order: seq<string>,
                           reply: string -> ReplyOracle)
      reads this
    {
      var p := Process(cfg, start, order, reply);
      State() == p.state && stopped == p.stopped && events == ev0 + p.events && actions == act0 + p.actions
    }

    /** One more name of the loop, handled where the previous ones left off. */
    method TakeOne(name: string, ghost start: MonitorState, ghost ev0: seq<Event>, ghost act0: seq<Action>,
                   ghost order: seq<string>, reply: string -> ReplyOracle)
      requires Tracks(start, ev0, act0, order, reply) && !stopped
      modifies this
      ensures Tracks(start, ev0, act0, order + [name], reply)
    {
      ghost var prev := Process(cfg, start, order, reply);
      ghost var h := Handle(cfg, prev.state, name, reply(name));
      ProcessSnoc(cfg, start, order, name, reply);
      HandleWindow(name, reply(name));
      AppendAssoc(ev0, prev.events, h.events);
      AppendAssoc(act0, prev.actions, h.actions);
    }

    /**
     * One pass of the `while True` loop; `order` reports the order in which the new windows
     * were taken, up to the window after which the loop returned.
     */
    method PollOnce(poll: Poll) returns (order: seq<string>)
      requires Valid() && !stopped
      modifies this
      ensures Valid()
      ensures var r := Cycle(cfg, old(State()), poll, order);
              && State() == r.state && stopped == r.stopped
              && events == old(events) + r.events && actions == old(actions) + r.actions
      ensures Distinct(order)
      ensures poll.running ==> forall k :: 0 <= k < |order| ==> order[k] in NewWindows(Names(poll.windows), old(known))
      ensures poll.running && !stopped ==> Enumerates(order, NewWindows(Names(poll.windows), old(known)))
      ensures !poll.running ==> order == []
    {
      ghost var st0, ev0 := State(), events;
      order := [];
      if poll.running {
        var current := Names(poll.windows);
        var pending := NewWindows(current, known);
        var increased := poll.badge > lastBadge;
        if pending != {} || increased {
          if increased {
            lastBadge := poll.badge;
          }
          order := ProcessPending(pending, poll.reply);
        }
        if !stopped {
          known := current;
          lastBadge := poll.badge;
        }
      }
      CyclePreservesValid(st0, ev0, poll, order);
    }

    lemma CyclePreservesValid(st: MonitorState, evs: seq<Event>, poll: Poll, order: seq<string>)
      requires Inv(st, evs) && (cfg.maxReplies > 0 ==> st.replyCount < cfg.maxReplies)
      ensures var r := Cycle(cfg, st, poll, order);
              && Inv(r.state, evs + r.events)
              && (cfg.maxReplies > 0 ==> r.state.replyCount <= cfg.maxReplies)
              && (cfg.maxReplies > 0 && !r.stopped ==> r.state.replyCount < cfg.maxReplies)
    {
      CycleKeepsInv(cfg, st, poll, order, evs);
      if cfg.maxReplies > 0 {
        CycleBudget(cfg, st, poll, order);
      }
    }

    /**
     * The fields are where the session over `polls`, in the given orders, leaves them from
     * `start`, and each order is one its pass can take.
     */
    ghost predicate Follows(start: MonitorState, ev0: seq<Event>, act0: seq<Action>, polls: seq<Poll>,
                            orders: seq<seq<string>>)
      reads this
    {
      && |orders| == |polls|
      && SessionOrders(cfg, start, polls, orders)
      && var s := Session(cfg, start, polls, orders);
         State() == s.state && stopped == s.stopped && events == ev0 + s.events && actions == act0 + s.actions
    }

    /** One more poll of the session. */
    method NextPoll(poll: Poll, ghost start: MonitorState, ghost ev0: seq<Event>, ghost act0: seq<Action>,
                    ghost polls: seq<Poll>, ghost orders: seq<seq<string>>)
      returns (order: seq<string>)
      requires Valid() && !stopped && Follows(start, ev0, act0, polls, orders)
      modifies this
      ensures Valid() && Follows(start, ev0, act0, polls + [poll], orders + [order])
      ensures PollOrder(cfg, old(State()), poll, order)
      ensures old(replied) <= replied && old(events) <= events
    {
      ghost var st0 := State();
      ghost var prev := Session(cfg, start, polls, orders);
      order := PollOnce(poll);
      CycleReplied(cfg, st0, poll, order);
      ghost var c := Cycle(cfg, prev.state, poll, order);
      SessionSnoc(cfg, start, polls, orders, poll, order);
      AppendAssoc(ev0, prev.events, c.events);
      AppendAssoc(act0, prev.actions, c.actions);
      SessionOrdersSnoc(cfg, start, polls, orders, poll, order);
    }

    /**
     * `monitor_chat` over a sequence of polls: one pass per poll until the loop returns. The
     * fields end where `Session` says for the orders reported; each name gets at most one paste
     * in the whole session, and `replied_windows` only grows.
     */
    method Run(polls: seq<Poll>) returns (done: nat, orders: seq<seq<string>>)
      requires Valid() && !stopped
      modifies this
      ensures Valid()
      ensures done <= |polls| && (done < |polls| ==> stopped) && |orders| == done
      ensures var s := Session(cfg, old(State()), polls[..done], orders);
              && State() == s.state && stopped == s.stopped
              && events == old(events) + s.events && actions == old(actions) + s.actions
      ensures SessionOrders(cfg, old(State()), polls[..done], orders)
      ensures SentToTitles(Session(cfg, old(State()), polls[..done], orders).events, SeenTitles(polls[..done]))
      ensures old(replied) <= replied && old(events) <= events
      ensures PastedOnce(events) && replyCount == |replied|
    {
      ghost var start, ev0, act0 := State(), events, actions;
      done := 0;
      orders := [];
      while done < |polls| && !stopped
        invariant Valid() && done <= |polls|
        invariant Follows(start, ev0, act0, polls[..done], orders)
        invariant old(replied) <= replied && old(events) <= events
        decreases |polls| - done
      {
        var order := NextPoll(polls[done], start, ev0, act0, polls[..done], orders);
        assert polls[..done + 1] == polls[..done] + [polls[done]];
        orders := orders + [order];
        done := done + 1;
      }
      SessionSenders(cfg, start, polls[..done], orders);
    }
  }
}
