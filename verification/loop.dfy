/**
 * Several iterations of the `run_app` loop: running a sequence of input
 * events, and the properties that relate consecutive key presses.
 */
module Loop {
  import opened Wrappers
  import opened Key
  import View
  import opened Notes
  import opened App

  /** What a run of the loop leaves: the last session, the commit messages of the syncs it started, and whether it quit. */
  datatype Trace = Trace(last: Session, syncs: seq<string>, quit: bool)

  /**
   * One iteration of the loop as a function value. Where the iteration would
   * panic, the process ends: the session is kept and the loop stops.
   */
  function Stepper(env: Env): (Session, Event) -> Stepped
  {
    (s: Session, ev: Event) => if Safe(env, s, ev) then Step(env, s, ev) else Stepped(s, Effects(None, true))
  }

  /** Whether an iteration runs without a panic, as a function value. */
  function Safety(env: Env): (Session, Event) -> bool
  {
    (s: Session, ev: Event) => Safe(env, s, ev)
  }

  /** Every iteration of a run of `step` satisfies `ok`, up to the point where the run quits. */
  predicate SafeRunWith(ok: (Session, Event) -> bool, step: (Session, Event) -> Stepped, s: Session, evs: seq<Event>)
    decreases |evs|
  {
    |evs| == 0 ||
    (ok(s, evs[0]) &&
     (step(s, evs[0]).effects.quit || SafeRunWith(ok, step, step(s, evs[0]).session, evs[1..])))
  }

  /** The commit messages of the effects, as a list. */
  function Emitted(e: Effects): seq<string>
  {
    if e.sync.Some? then [e.sync.value] else []
  }

  /** Runs `step` over `evs`, stopping at a quit, collecting the sync messages. */
  function RunWith(step: (Session, Event) -> Stepped, s: Session, evs: seq<Event>): (t: Trace)
    ensures |t.syncs| <= |evs|
    ensures t.quit ==> |evs| > 0
    decreases |evs|
  {
    if |evs| == 0 then Trace(s, [], false)
    else
      var st := step(s, evs[0]);
      if st.effects.quit then Trace(st.session, Emitted(st.effects), true)
      else
        var rest := RunWith(step, st.session, evs[1..]);
        Trace(rest.last, Emitted(st.effects) + rest.syncs, rest.quit)
  }

  /** Running two event sequences one after the other is running their concatenation, under any step function. */
  lemma {:induction false} RunWithAppend(step: (Session, Event) -> Stepped, s: Session, a: seq<Event>, b: seq<Event>)
    requires !RunWith(step, s, a).quit
    ensures var mid := RunWith(step, s, a);
            var tail := RunWith(step, mid.last, b);
            RunWith(step, s, a + b) == Trace(tail.last, mid.syncs + tail.syncs, tail.quit)
    decreases |a|
  {
    if |a| == 0 {
      assert a + b == b;
    } else {
      var st := step(s, a[0]);
      assert (a + b)[0] == a[0];
      assert (a + b)[1..] == a[1..] + b;
      var mid := RunWith(step, st.session, a[1..]);
      RunWithAppend(step, st.session, a[1..], b);
      ConcatAssoc(Emitted(st.effects), mid.syncs, RunWith(step, mid.last, b).syncs);
    }
  }

  /** A run that starts with `ev` is the step on `ev` followed by the run of the rest. */
  lemma {:induction false} RunWithCons(ok: (Session, Event) -> bool, step: (Session, Event) -> Stepped, s: Session, ev: Event, rest: seq<Event>)
    requires !step(s, ev).effects.quit
    ensures var st := step(s, ev);
            var t := RunWith(step, st.session, rest);
            RunWith(step, s, [ev] + rest) == Trace(t.last, Emitted(st.effects) + t.syncs, t.quit)
    ensures SafeRunWith(ok, step, s, [ev] + rest) <==> ok(s, ev) && SafeRunWith(ok, step, step(s, ev).session, rest)
  {
    assert ([ev] + rest)[0] == ev;
    assert ([ev] + rest)[1..] == rest;
  }

  /** A run of two events is the two steps one after the other. */
  lemma {:induction false} RunWithPair(ok: (Session, Event) -> bool, step: (Session, Event) -> Stepped, s: Session, e1: Event, e2: Event)
    requires !step(s, e1).effects.quit
    ensures var st1 := step(s, e1);
            var st2 := step(st1.session, e2);
            RunWith(step, s, [e1, e2]) == Trace(st2.session, Emitted(st1.effects) + Emitted(st2.effects), st2.effects.quit)
    ensures SafeRunWith(ok, step, s, [e1, e2]) <==> ok(s, e1) && ok(step(s, e1).session, e2)
  {
    assert [e1, e2] == [e1] + [e2];
    RunWithCons(ok, step, s, e1, [e2]);
    assert [e2][1..] == [];
  }

  /** A safe run followed by a safe run is a safe run. */
  lemma {:induction false} SafeRunWithAppend(ok: (Session, Event) -> bool, step: (Session, Event) -> Stepped,
                                             s: Session, a: seq<Event>, b: seq<Event>)
    requires SafeRunWith(ok, step, s, a) && !RunWith(step, s, a).quit
    requires SafeRunWith(ok, step, RunWith(step, s, a).last, b)
    ensures SafeRunWith(ok, step, s, a + b)
    decreases |a|
  {
    if |a| == 0 {
      assert a + b == b;
    } else {
      var st := step(s, a[0]);
      assert (a + b)[0] == a[0];
      assert (a + b)[1..] == a[1..] + b;
      SafeRunWithAppend(ok, step, st.session, a[1..], b);
    }
  }

  /** Both halves of a concatenated run, the safety condition and the trace, under any step function. */
  lemma {:induction false} RunAppendWith(ok: (Session, Event) -> bool, step: (Session, Event) -> Stepped, s: Session, a: seq<Event>, b: seq<Event>)
    requires SafeRunWith(ok, step, s, a) && !RunWith(step, s, a).quit
    requires SafeRunWith(ok, step, RunWith(step, s, a).last, b)
    ensures SafeRunWith(ok, step, s, a + b)
    ensures var mid := RunWith(step, s, a);
            var tail := RunWith(step, mid.last, b);
            RunWith(step, s, a + b) == Trace(tail.last, mid.syncs + tail.syncs, tail.quit)
  {
    RunWithAppend(step, s, a, b);
    SafeRunWithAppend(ok, step, s, a, b);
  }

  /** Every iteration of the run is free of panics, up to the point where the loop quits. */
  predicate RunSafe(env: Env, s: Session, evs: seq<Event>)
  {
    SafeRunWith(Safety(env), Stepper(env), s, evs)
  }

  /**
   * Runs the loop over `evs`, stopping at a quit or at a panic, which both
   * end the process. The store changes only when at least one sync was
   * started, and there is at most one sync per event.
   */
  function Run(env: Env, s: Session, evs: seq<Event>): (t: Trace)
    ensures t.syncs == [] ==> t.last.store == s.store
    ensures |t.syncs| <= |evs|
  {
    QuietRunKeepsStore(env, s, evs);
    RunWith(Stepper(env), s, evs)
  }

  /** Where the iteration does not panic, the function values are the loop iteration and its safety condition. */
  lemma {:induction false} StepperIsStep(env: Env, s: Session, ev: Event)
    requires Safe(env, s, ev)
    ensures Safety(env)(s, ev)
    ensures Stepper(env)(s, ev) == Step(env, s, ev)
  {
  }

  /** A run that starts no sync leaves the store as it was. */
  lemma {:induction false} QuietRunKeepsStore(env: Env, s: Session, evs: seq<Event>)
    ensures RunWith(Stepper(env), s, evs).syncs == [] ==> RunWith(Stepper(env), s, evs).last.store == s.store
    decreases |evs|
  {
    if |evs| > 0 {
      var st := Stepper(env)(s, evs[0]);
      if Safe(env, s, evs[0]) {
        StepperIsStep(env, s, evs[0]);
      }
      assert st.effects.sync.None? ==> st.session.store == s.store;
      if !st.effects.quit {
        QuietRunKeepsStore(env, st.session, evs[1..]);
      }
    }
  }

  /**
   * Running two event sequences one after the other is running their
   * concatenation, and two panic-free runs make a panic-free run.
   */
  lemma {:induction false} RunAppend(env: Env, s: Session, a: seq<Event>, b: seq<Event>)
    requires !Run(env, s, a).quit
    ensures var mid := Run(env, s, a);
            var tail := Run(env, mid.last, b);
            Run(env, s, a + b) == Trace(tail.last, mid.syncs + tail.syncs, tail.quit)
    ensures RunSafe(env, s, a) && RunSafe(env, Run(env, s, a).last, b) ==> RunSafe(env, s, a + b)
  {
    RunWithAppend(Stepper(env), s, a, b);
    if RunSafe(env, s, a) && RunSafe(env, Run(env, s, a).last, b) {
      SafeRunWithAppend(Safety(env), Stepper(env), s, a, b);
    }
  }

  /** Concatenation of lists is associative. */
  lemma {:induction false} ConcatAssoc<T>(a: seq<T>, b: seq<T>, c: seq<T>)
    ensures a + (b + c) == (a + b) + c
  {
  }

  /** A key press with no modifier. */
  function Press(code: KeyCode): Event
  {
    KeyInput(KeyEvent(code, NONE))
  }

  /** A key press with Control. */
  function CtrlPress(c: char): Event
  {
    KeyInput(KeyEvent(Char(c), CONTROL))
  }

  /** The key presses that type `w`. */
  function Keys(w: string): (r: seq<Event>)
    ensures |r| == |w|
  {
    if |w| == 0 then [] else [Press(Char(w[0]))] + Keys(w[1..])
  }

  /** `n` presses of Tab. */
  function Tabs(n: nat): (r: seq<Event>)
    ensures |r| == n
  {
    if n == 0 then [] else Tabs(n - 1) + [Press(Tab)]
  }

  /** In every mode, Tab advances the mode and leaves the scratch note and the store alone. */
  lemma {:induction false} StepTab(env: Env, s: Session)
    requires Valid(s.store)
    requires s.mode == EditingSearch && |s.search| == 0 ==> Scan(env, s.store).Ok?
    ensures Safe(env, s, Press(Tab))
    ensures Step(env, s, Press(Tab)).session.mode == NextMode(s.mode)
    ensures Step(env, s, Press(Tab)).session.note == s.note
    ensures Step(env, s, Press(Tab)).session.store == s.store
    ensures Step(env, s, Press(Tab)).session.search == s.search
    ensures Step(env, s, Press(Tab)).effects == Quiet
  {
  }

  /** Under `step`, Tab in `t` passes `ok`, advances the mode, and leaves the note, the store and the search text alone. */
  predicate TabStep(ok: (Session, Event) -> bool, step: (Session, Event) -> Stepped, t: Session)
  {
    && ok(t, Press(Tab))
    && var st := step(t, Press(Tab));
       && st.session.mode == NextMode(t.mode)
       && st.session.note == t.note && st.session.store == t.store && st.session.search == t.search
       && st.effects == Quiet
  }

  /** Under any step function whose Tab behaves so over the store of `s`, `n` presses advance the mode `n` places. */
  lemma {:induction false} TabsCycleWith(ok: (Session, Event) -> bool, step: (Session, Event) -> Stepped, s: Session, n: nat)
    requires forall t: Session :: t.store == s.store ==> TabStep(ok, step, t)
    ensures SafeRunWith(ok, step, s, Tabs(n))
    ensures var t := RunWith(step, s, Tabs(n));
            && t.last.mode == Advance(s.mode, n)
            && t.last.note == s.note && t.last.store == s.store && t.last.search == s.search
            && t.syncs == [] && !t.quit
  {
    if n == 0 {
    } else {
      TabsCycleWith(ok, step, s, n - 1);
      var before := RunWith(step, s, Tabs(n - 1));
      var mid := before.last;
      assert TabStep(ok, step, mid);
      var st := step(mid, Press(Tab));
      RunWithOne(ok, step, mid, Press(Tab));
      RunAppendWith(ok, step, s, Tabs(n - 1), [Press(Tab)]);
      assert RunWith(step, s, Tabs(n)) == Trace(st.session, [], false);
    }
  }

  /**
   * `n` presses of Tab advance the mode `n` places around the cycle and
   * leave the note, the store and the search text alone.
   */
  lemma {:induction false} TabsCycle(env: Env, s: Session, n: nat)
    requires Valid(s.store) && Scan(env, s.store).Ok?
    ensures RunSafe(env, s, Tabs(n))
    ensures var t := Run(env, s, Tabs(n));
            && t.last.mode == Advance(s.mode, n)
            && t.last.note == s.note && t.last.store == s.store && t.last.search == s.search
            && t.syncs == [] && !t.quit
  {
    forall t: Session | t.store == s.store
      ensures TabStep(Safety(env), Stepper(env), t)
    {
      StepTab(env, t);
      StepperIsStep(env, t, Press(Tab));
    }
    TabsCycleWith(Safety(env), Stepper(env), s, n);
  }

  /** Five presses of Tab return to the starting mode, with the note and the store untouched. */
  lemma {:induction false} FiveTabsReturn(env: Env, s: Session)
    requires Valid(s.store) && Scan(env, s.store).Ok?
    ensures RunSafe(env, s, Tabs(5))
    ensures Run(env, s, Tabs(5)).last.mode == s.mode
    ensures Run(env, s, Tabs(5)).last.note == s.note && Run(env, s, Tabs(5)).last.store == s.store
  {
    TabsCycle(env, s, 5);
    CyclePeriod(s.mode);
  }

  /** In an editing mode, a typed character is appended to the mode's buffer and nothing else changes. */
  lemma {:induction false} StepTyped(env: Env, s: Session, c: char)
    requires Valid(s.store) && s.mode != Normal
    ensures Safe(env, s, Press(Char(c)))
    ensures Step(env, s, Press(Char(c))) == Stepped(WithBuffer(s, ActiveBuffer(s) + [c]), Quiet)
  {
  }

  /** A session whose keystrokes edit a buffer, over a consistent store. */
  predicate Editable(t: Session)
  {
    Valid(t.store) && t.mode != Normal
  }

  /** Under `step`, typing `c` in `t` passes `ok` and appends `c` to the active buffer, changing nothing else. */
  predicate TypesThrough(ok: (Session, Event) -> bool, step: (Session, Event) -> Stepped, t: Session, c: char)
  {
    ok(t, Press(Char(c))) && step(t, Press(Char(c))) == Stepped(WithBuffer(t, ActiveBuffer(t) + [c]), Quiet)
  }

  /** Under any step function that appends typed characters, typing a string appends the string. */
  lemma {:induction false} TypingAppendsWith(ok: (Session, Event) -> bool, step: (Session, Event) -> Stepped, s: Session, w: string)
    requires Editable(s)
    requires forall t: Session, c: char :: Editable(t) ==> TypesThrough(ok, step, t, c)
    ensures SafeRunWith(ok, step, s, Keys(w))
    ensures RunWith(step, s, Keys(w)) == Trace(WithBuffer(s, ActiveBuffer(s) + w), [], false)
    decreases |w|
  {
    if |w| == 0 {
      assert ActiveBuffer(s) + w == ActiveBuffer(s);
      BufferRoundTrip(s, ActiveBuffer(s), ActiveBuffer(s));
    } else {
      var c := w[0];
      var b1 := ActiveBuffer(s) + [c];
      assert TypesThrough(ok, step, s, c);
      BufferRoundTrip(s, b1, b1 + w[1..]);
      TypingAppendsWith(ok, step, WithBuffer(s, b1), w[1..]);
      RunWithCons(ok, step, s, Press(Char(c)), Keys(w[1..]));
      assert b1 + w[1..] == ActiveBuffer(s) + w;
    }
  }

  /** In an editing mode, the active buffer reads back what was written, and a second write replaces the first. */
  lemma {:induction false} BufferRoundTrip(s: Session, a: string, b: string)
    requires s.mode != Normal
    ensures ActiveBuffer(WithBuffer(s, a)) == a
    ensures WithBuffer(WithBuffer(s, a), b) == WithBuffer(s, b)
    ensures WithBuffer(s, a).mode == s.mode && WithBuffer(s, a).store == s.store
    ensures WithBuffer(s, ActiveBuffer(s)) == s
  {
  }

  /** In an editing mode, typing a string appends it to the mode's buffer and nothing else changes. */
  lemma {:induction false} TypingAppends(env: Env, s: Session, w: string)
    requires Valid(s.store) && s.mode != Normal
    ensures RunSafe(env, s, Keys(w))
    ensures Run(env, s, Keys(w)) == Trace(WithBuffer(s, ActiveBuffer(s) + w), [], false)
  {
    forall t: Session, c: char | Editable(t)
      ensures TypesThrough(Safety(env), Stepper(env), t, c)
    {
      StepTyped(env, t, c);
    }
    TypingAppendsWith(Safety(env), Stepper(env), s, w);
  }

  /** In Normal mode, Left clears the widget selection and changes nothing else. */
  lemma {:induction false} StepLeft(env: Env, s: Session)
    requires Valid(s.store) && s.mode == Normal
    ensures Safe(env, s, Press(Left))
    ensures Step(env, s, Press(Left)) == Stepped(s.(list := View.Unselect(s.list)), Quiet)
  {
  }

  /**
   * The `unselect` quirk: after Left clears the widget selection, Ctrl-s still
   * saves over the note at the old caller-visible index.
   */
  lemma {:induction false} LeftThenSave(env: Env, s: Session)
    requires Valid(s.store) && s.mode == Normal
    requires s.list.selectedNum.Some? && s.list.selectedNum.value < |s.list.items|
    ensures RunSafe(env, s, [Press(Left), CtrlPress('s')])
    ensures var t := Run(env, s, [Press(Left), CtrlPress('s')]);
            var i := s.list.selectedNum.value;
            var saved := New(env.root, s.note.language, s.note.title, s.note.contents);
            && t.last.list.widget.None?
            && t.last.list.items == s.list.items[i := saved]
            && t.last.store.files == s.store.files[saved.filePath := Record(saved)]
            && t.syncs == [CommitMessage(saved)]
  {
    var s1 := s.(list := View.Unselect(s.list));
    StepLeft(env, s);
    StepSave(env, s1);
    StepperIsStep(env, s, Press(Left));
    StepperIsStep(env, s1, CtrlPress('s'));
    RunWithPair(Safety(env), Stepper(env), s, Press(Left), CtrlPress('s'));
  }

  /** From a valid selection, Down then Up selects the same note again and makes it the scratch note. */
  lemma {:induction false} DownThenUp(env: Env, s: Session)
    requires Valid(s.store) && s.mode == Normal
    requires s.list.widget.Some? && s.list.widget.value < |s.list.items|
    ensures RunSafe(env, s, [Press(Down), Press(Up)])
    ensures var t := Run(env, s, [Press(Down), Press(Up)]);
            && t.last.list.widget == s.list.widget
            && t.last.list.selectedNum == s.list.widget
            && t.last.note == s.list.items[s.list.widget.value]
            && t.last.list.items == s.list.items
            && t.last.store == s.store && t.syncs == []
  {
    View.StepInverse(s.list);
    assert [Press(Down), Press(Up)][1..] == [Press(Up)];
  }

  /**
   * The search reset: once Backspace empties the query, the list is the full
   * scan of the store again, whatever an earlier filter had removed.
   */
  lemma {:induction false} FilterThenClear(env: Env, s: Session, c: char)
    requires Valid(s.store) && Scan(env, s.store).Ok?
    requires s.mode == EditingSearch && s.search == [c]
    ensures RunSafe(env, s, [Press(Enter), Press(Backspace)])
    ensures var t := Run(env, s, [Press(Enter), Press(Backspace)]);
            && t.last.list.items == Scan(env, s.store).value
            && t.last.search == []
            && t.last.mode == EditingSearch
  {
    assert [Press(Enter), Press(Backspace)][1..] == [Press(Backspace)];
    var s1 := Step(env, s, Press(Enter)).session;
    assert s1.search == [c];
    assert s1.list.items == FilterByTitle(s.list.items, [c], env.matches);
  }

  /** A note with the given title and nothing else, as the counterexample below uses. */
  function Titled(t: string): Note
  {
    Note(t, t, "", "")
  }

  /**
   * The list's selection is not repaired after a search filter shrinks the
   * list: here the third of three notes is selected, the filter keeps one, and
   * the selection now points past the end, so a following Ctrl-s would index
   * out of bounds.
   */
  lemma FilterLeavesSelectionStale()
    ensures var env := Env("r", (title: string, query: string) => title == "a", (p: string) => true);
            var list := View.StatefulList(Some(2), Some(2), [Titled("a"), Titled("b"), Titled("c")]);
            var s := Session(EditingSearch, list, Titled("c"), "a", Empty);
            var after := Step(env, s, Press(Enter)).session;
            && Safe(env, s, Press(Enter))
            && after.list.items == [Titled("a")]
            && after.list.selectedNum == Some(2)
            && !Safe(env, after.(mode := Normal), CtrlPress('s'))
  {
    var env := Env("r", (title: string, query: string) => title == "a", (p: string) => true);
    var items := [Titled("a"), Titled("b"), Titled("c")];
    assert FilterByTitle(items, "a", env.matches) == [Titled("a")] by {
      assert items[1..] == [Titled("b"), Titled("c")];
      assert items[1..][1..] == [Titled("c")];
    }
  }

  /** The empty scratch note under the environment's root. */
  function Blank(env: Env): Note
  {
    New(env.root, "", "", "")
  }

  /** A session of the scenario below: one blank note added and selected, the given mode and scratch fields, empty store. */
  function Editing(env: Env, mode: InputMode, title: string, language: string, contents: string): Session
  {
    Session(mode, View.StatefulList(Some(0), Some(0), [Blank(env)]),
            Blank(env).(title := title, language := language, contents := contents), [], Empty)
  }

  /** In a note-editing mode, Esc returns to Normal mode and changes nothing else. */
  lemma {:induction false} StepEsc(env: Env, s: Session)
    requires Valid(s.store) && s.mode in {EditingTitle, EditingLanguage, EditingCode}
    ensures Safe(env, s, Press(Esc))
    ensures Step(env, s, Press(Esc)) == Stepped(s.(mode := Normal), Quiet)
  {
  }

  /** In Normal mode with the selection in range, Ctrl-s is the save of the selected note. */
  lemma {:induction false} StepSave(env: Env, s: Session)
    requires Valid(s.store) && s.mode == Normal
    requires s.list.selectedNum.Some? ==> s.list.selectedNum.value < |s.list.items|
    ensures Safe(env, s, CtrlPress('s'))
    ensures Step(env, s, CtrlPress('s')) == SaveSelected(env, s)
  {
  }

  /** From a note-editing mode, Esc then Ctrl-s saves the scratch note over the selected one and starts one sync. */
  lemma {:induction false} EscThenSave(env: Env, s: Session)
    requires Valid(s.store) && s.mode in {EditingTitle, EditingLanguage, EditingCode}
    requires s.list.selectedNum.Some? && s.list.selectedNum.value < |s.list.items|
    ensures RunSafe(env, s, [Press(Esc), CtrlPress('s')])
    ensures var t := Run(env, s, [Press(Esc), CtrlPress('s')]);
            var i := s.list.selectedNum.value;
            var saved := New(env.root, s.note.language, s.note.title, s.note.contents);
            && t.last.mode == Normal
            && t.last.list.items == s.list.items[i := saved]
            && t.last.store.files == s.store.files[saved.filePath := Record(saved)]
            && t.syncs == [CommitMessage(saved)]
            && !t.quit
  {
    var s1 := s.(mode := Normal);
    StepEsc(env, s);
    StepSave(env, s1);
    StepperIsStep(env, s, Press(Esc));
    StepperIsStep(env, s1, CtrlPress('s'));
    RunWithPair(Safety(env), Stepper(env), s, Press(Esc), CtrlPress('s'));
  }

  /** A session editing the title, the language or the code of the scratch note, over a consistent store. */
  predicate NoteEditing(t: Session)
  {
    Valid(t.store) && t.mode in {EditingTitle, EditingLanguage, EditingCode}
  }

  /** Under `step`, Tab in `t` passes `ok` and only advances the mode. */
  predicate TabsThrough(ok: (Session, Event) -> bool, step: (Session, Event) -> Stepped, t: Session)
  {
    ok(t, Press(Tab)) && step(t, Press(Tab)) == Stepped(t.(mode := NextMode(t.mode)), Quiet)
  }

  /** In a note-editing mode, Tab only advances the mode. */
  lemma {:induction false} StepTabNote(env: Env, t: Session)
    requires NoteEditing(t)
    ensures TabsThrough(Safety(env), Stepper(env), t)
  {
  }

  /** The scenario's opening keys: Ctrl-n adds an empty note, Enter starts editing its title. */
  function Opening(): seq<Event>
  {
    [CtrlPress('n'), Press(Enter)]
  }

  /** The keys that fill in a note from the title box: the title, Tab, the language, Tab, the code. */
  function Filling(title: string, language: string, code: string): seq<Event>
  {
    Keys(title) + [Press(Tab)] + Keys(language) + [Press(Tab)] + Keys(code)
  }

  /** The scenario's keys up to the typed code. */
  function Composing(title: string, language: string, code: string): seq<Event>
  {
    Opening() + Filling(title, language, code)
  }

  /** A run of one event is that step. */
  lemma {:induction false} RunWithOne(ok: (Session, Event) -> bool, step: (Session, Event) -> Stepped, s: Session, ev: Event)
    ensures RunWith(step, s, [ev]) == Trace(step(s, ev).session, Emitted(step(s, ev).effects), step(s, ev).effects.quit)
    ensures SafeRunWith(ok, step, s, [ev]) <==> ok(s, ev)
  {
    assert [ev][1..] == [];
  }

  /** Under any step function that types and tabs like the loop does, typing into an empty note box and pressing Tab fills the box and moves on. */
  lemma {:induction false} TypeThenTabWith(ok: (Session, Event) -> bool, step: (Session, Event) -> Stepped, s: Session, w: string)
    requires NoteEditing(s) && ActiveBuffer(s) == []
    requires forall t: Session, c: char :: Editable(t) ==> TypesThrough(ok, step, t, c)
    requires forall t: Session :: NoteEditing(t) ==> TabsThrough(ok, step, t)
    ensures SafeRunWith(ok, step, s, Keys(w) + [Press(Tab)])
    ensures RunWith(step, s, Keys(w) + [Press(Tab)]) == Trace(WithBuffer(s, w).(mode := NextMode(s.mode)), [], false)
  {
    TypingAppendsWith(ok, step, s, w);
    assert ActiveBuffer(s) + w == w;
    var s1 := WithBuffer(s, w);
    BufferRoundTrip(s, w, w);
    assert TabsThrough(ok, step, s1);
    RunWithOne(ok, step, s1, Press(Tab));
    RunAppendWith(ok, step, s, Keys(w), [Press(Tab)]);
  }

  /**
   * Under any step function that types and tabs like the loop does, filling
   * in an empty note from the title box sets its three fields and ends in the
   * code box.
   */
  lemma {:induction false} FillingWith(ok: (Session, Event) -> bool, step: (Session, Event) -> Stepped,
                                       s: Session, title: string, language: string, code: string)
    requires NoteEditing(s) && s.mode == EditingTitle
    requires s.note.title == [] && s.note.language == [] && s.note.contents == []
    requires forall t: Session, c: char :: Editable(t) ==> TypesThrough(ok, step, t, c)
    requires forall t: Session :: NoteEditing(t) ==> TabsThrough(ok, step, t)
    ensures SafeRunWith(ok, step, s, Filling(title, language, code))
    ensures RunWith(step, s, Filling(title, language, code))
         == Trace(s.(mode := EditingCode, note := s.note.(title := title, language := language, contents := code)), [], false)
  {
    var a := Keys(title) + [Press(Tab)];
    var b := Keys(language) + [Press(Tab)];
    assert Filling(title, language, code) == a + b + Keys(code);
    TypeThenTabWith(ok, step, s, title);
    var s1 := s.(mode := EditingLanguage, note := s.note.(title := title));
    TypeThenTabWith(ok, step, s1, language);
    RunAppendWith(ok, step, s, a, b);
    var s2 := s1.(mode := EditingCode, note := s1.note.(language := language));
    TypingAppendsWith(ok, step, s2, code);
    assert [] + code == code;
    RunAppendWith(ok, step, s, a + b, Keys(code));
  }

  /** On the empty store, Ctrl-n adds the blank note and selects it. */
  lemma {:induction false} StepOpeningNew(env: Env)
    ensures Valid(Empty) && Scan(env, Empty) == Ok([])
    ensures Safe(env, Init(env, Empty), CtrlPress('n'))
    ensures Step(env, Init(env, Empty), CtrlPress('n')) == Stepped(Editing(env, Normal, "", "", ""), Quiet)
  {
    assert Scan(env, Empty) == Ok([]);
  }

  /** With the blank note selected, Enter starts editing its title. */
  lemma {:induction false} StepOpeningEnter(env: Env)
    ensures Safe(env, Editing(env, Normal, "", "", ""), Press(Enter))
    ensures Step(env, Editing(env, Normal, "", "", ""), Press(Enter)) == Stepped(Editing(env, EditingTitle, "", "", ""), Quiet)
  {
  }

  /** Scenario, first part: on the empty store, Ctrl-n adds and selects an empty note and Enter starts editing its title. */
  lemma {:induction false} ScenarioStart(env: Env)
    ensures Valid(Empty) && Scan(env, Empty) == Ok([])
    ensures RunSafe(env, Init(env, Empty), Opening())
    ensures Run(env, Init(env, Empty), Opening()) == Trace(Editing(env, EditingTitle, "", "", ""), [], false)
  {
    var s0 := Init(env, Empty);
    var s1 := Editing(env, Normal, "", "", "");
    StepOpeningNew(env);
    StepOpeningEnter(env);
    StepperIsStep(env, s0, CtrlPress('n'));
    StepperIsStep(env, s1, Press(Enter));
    RunWithPair(Safety(env), Stepper(env), s0, CtrlPress('n'), Press(Enter));
  }

  /** Scenario, second part: the title, the language and the code are typed, with Tab between them; nothing is stored yet. */
  lemma {:induction false} ScenarioCompose(env: Env, title: string, language: string, code: string)
    ensures Valid(Empty) && Scan(env, Empty).Ok?
    ensures RunSafe(env, Init(env, Empty), Composing(title, language, code))
    ensures Run(env, Init(env, Empty), Composing(title, language, code))
         == Trace(Editing(env, EditingCode, title, language, code), [], false)
  {
    var s0 := Init(env, Empty);
    ScenarioStart(env);
    forall t: Session, c: char | Editable(t)
      ensures TypesThrough(Safety(env), Stepper(env), t, c)
    {
      StepTyped(env, t, c);
    }
    forall t: Session | NoteEditing(t)
      ensures TabsThrough(Safety(env), Stepper(env), t)
    {
      StepTabNote(env, t);
    }
    var s := Editing(env, EditingTitle, "", "", "");
    FillingWith(Safety(env), Stepper(env), s, title, language, code);
    RunAppendWith(Safety(env), Stepper(env), s0, Opening(), Filling(title, language, code));
  }

  /**
   * A whole editing session on an empty store: Ctrl-n, Enter, type a title,
   * Tab, type a language, Tab, type the code, Esc, Ctrl-s. Exactly one note
   * is stored, at the path derived from the root, the language and the title,
   * and exactly one sync starts, named after the language and the title.
   */
  lemma {:induction false} EndToEnd(env: Env, title: string, language: string, code: string)
    ensures Valid(Empty) && Scan(env, Empty).Ok?
    ensures var events := Composing(title, language, code) + [Press(Esc), CtrlPress('s')];
            var saved := New(env.root, language, title, code);
            && RunSafe(env, Init(env, Empty), events)
            && var t := Run(env, Init(env, Empty), events);
               && t.last.store.files == map[saved.filePath := Record(saved)]
               && Load(t.last.store, saved.filePath) == Ok(saved)
               && t.syncs == [CommitMessage(saved)]
               && !t.quit
  {
    var s0 := Init(env, Empty);
    var prefix := Composing(title, language, code);
    ScenarioCompose(env, title, language, code);
    var s := Editing(env, EditingCode, title, language, code);
    EscThenSave(env, s);
    RunAppend(env, s0, prefix, [Press(Esc), CtrlPress('s')]);
    var saved := New(env.root, language, title, code);
    assert s.note == saved.(filePath := Blank(env).filePath);
    var t := Run(env, s0, prefix + [Press(Esc), CtrlPress('s')]);
    assert t.last.store.files == map[saved.filePath := Record(saved)];
    LoadAfterSave(Empty, saved);
  }

  /** The note of the example session "demo" in "go" under "/notes" is stored at "/notes/go/demo.md" and synced as "update: go, demo". */
  lemma DemoSession()
    ensures var saved := New("/notes", "go", "demo", "fmt.Println");
            && saved.filePath == "/notes/go/demo.md"
            && CommitMessage(saved) == "update: go, demo"
  {
  }
}
