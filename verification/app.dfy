/**
 * The key dispatch of `src/app.rs`: `update_input_buffer`, the directory scan
 * `load_all_markdown`, the title filter of the search box, and one iteration
 * of the `run_app` loop as a pure step from a session and an input event to
 * the next session and the effects the iteration has on the outside world.
 */
module App {
  import opened Wrappers
  import opened Key
  import View
  import opened Notes

  /** The modifier flags held with a key: one flag per modifier key. */
  datatype KeyModifiers = KeyModifiers(shift: bool, control: bool, alt: bool, superKey: bool, hyper: bool, meta: bool)

  /** No modifier held. */
  const NONE: KeyModifiers := KeyModifiers(false, false, false, false, false, false)

  /** Shift alone. */
  const SHIFT: KeyModifiers := NONE.(shift := true)

  /** Control alone. */
  const CONTROL: KeyModifiers := NONE.(control := true)

  /** The key codes the loop distinguishes; every other key is `OtherKey`. */
  datatype KeyCode = Backspace | Enter | Left | Up | Down | Tab | Esc | Char(c: char) | OtherKey

  /** A key press: its code and the modifiers held with it. */
  datatype KeyEvent = KeyEvent(code: KeyCode, modifiers: KeyModifiers)

  /** A terminal event: a key press, or anything else (mouse, resize, focus). */
  datatype Event = KeyInput(key: KeyEvent) | OtherEvent

  /** `code` pressed with no modifier. */
  predicate Plain(k: KeyEvent, code: KeyCode)
  {
    k.code == code && k.modifiers == NONE
  }

  /** The character `c` pressed with Control alone. */
  predicate Ctrl(k: KeyEvent, c: char)
  {
    k.code == Char(c) && k.modifiers == CONTROL
  }

  /** A character pressed with no modifier or with Shift alone: it is typed into the buffer. */
  predicate Typed(k: KeyEvent)
  {
    k.code.Char? && (k.modifiers == NONE || k.modifiers == SHIFT)
  }

  /** The input mode and a text buffer, as `update_input_buffer` leaves them. */
  datatype Edit = Edit(mode: InputMode, buffer: string)

  /**
   * `update_input_buffer`: typing appends, Backspace drops the last character,
   * Tab advances the mode, Esc returns to Normal; Enter and every other key
   * leave both alone.
   */
  function UpdateInputBuffer(mode: InputMode, buffer: string, k: KeyEvent): (r: Edit)
    ensures Typed(k) ==> r == Edit(mode, buffer + [k.code.c])
    ensures Plain(k, Backspace) ==> r.mode == mode
    ensures Plain(k, Backspace) && |buffer| == 0 ==> r.buffer == buffer
    ensures Plain(k, Backspace) && |buffer| > 0 ==> r.buffer + [buffer[|buffer| - 1]] == buffer
    ensures Plain(k, Tab) ==> r == Edit(NextMode(mode), buffer)
    ensures Plain(k, Esc) ==> r == Edit(Normal, buffer)
    ensures !Typed(k) && !Plain(k, Backspace) && !Plain(k, Tab) && !Plain(k, Esc) ==> r == Edit(mode, buffer)
  {
    if Plain(k, Enter) then Edit(mode, buffer)
    else if Typed(k) then Edit(mode, buffer + [k.code.c])
    else if Plain(k, Backspace) then Edit(mode, if |buffer| == 0 then buffer else buffer[..|buffer| - 1])
    else if Plain(k, Tab) then Edit(NextMode(mode), buffer)
    else if Plain(k, Esc) then Edit(Normal, buffer)
    else Edit(mode, buffer)
  }

  /** Backspace undoes the typing of one character. */
  lemma {:induction false} BackspaceUndoesTyping(mode: InputMode, buffer: string, k: KeyEvent)
    requires Typed(k)
    ensures UpdateInputBuffer(mode, UpdateInputBuffer(mode, buffer, k).buffer, KeyEvent(Backspace, NONE)) == Edit(mode, buffer)
  {
    var typed := UpdateInputBuffer(mode, buffer, k).buffer;
    assert typed[..|typed| - 1] == buffer;
  }

  /**
   * What the loop takes from outside: the storage root, the fuzzy matcher
   * (does a title match a query), and the test for the note file extension.
   */
  datatype Env = Env(root: string, matches: (string, string) -> bool, isMarkdown: string -> bool)

  /** The paths of `paths` that carry the note extension, in order. */
  function MarkdownPaths(env: Env, paths: seq<string>): (r: seq<string>)
    ensures forall p :: p in r <==> p in paths && env.isMarkdown(p)
    ensures |r| <= |paths|
  {
    if |paths| == 0 then []
    else if env.isMarkdown(paths[0]) then [paths[0]] + MarkdownPaths(env, paths[1..])
    else MarkdownPaths(env, paths[1..])
  }

  /** The extension filter of the walk keeps the relative order of the paths: it distributes over concatenation. */
  lemma {:induction false} MarkdownAppend(env: Env, a: seq<string>, b: seq<string>)
    ensures MarkdownPaths(env, a + b) == MarkdownPaths(env, a) + MarkdownPaths(env, b)
  {
    if |a| > 0 {
      assert (a + b)[1..] == a[1..] + b;
      MarkdownAppend(env, a[1..], b);
    } else {
      assert a + b == b;
    }
  }

  /**
   * The scan loop over `paths`: loads every markdown file in order and fails
   * as soon as one does not decode.
   */
  function ScanPaths(env: Env, st: Store, paths: seq<string>): (r: Result<seq<Note>, FsError>)
    requires forall p :: p in paths ==> p in st.files
    ensures r.Ok? <==> forall p :: p in paths && env.isMarkdown(p) ==> st.files[p].Record?
    ensures r.Err? ==> r.error == Undecodable
    ensures r.Ok? ==> |r.value| == |MarkdownPaths(env, paths)|
    ensures r.Ok? ==> forall k :: 0 <= k < |r.value| ==> st.files[MarkdownPaths(env, paths)[k]] == Record(r.value[k])
  {
    if |paths| == 0 then Ok([])
    else if env.isMarkdown(paths[0]) then
      match Load(st, paths[0])
      case Err(e) => Err(e)
      case Ok(note) =>
        match ScanPaths(env, st, paths[1..])
        case Err(e) => Err(e)
        case Ok(rest) => Ok([note] + rest)
    else ScanPaths(env, st, paths[1..])
  }

  /**
   * `load_all_markdown`: the notes of every markdown file of the store, or a
   * failure when any of them does not decode.
   */
  function Scan(env: Env, st: Store): (r: Result<seq<Note>, FsError>)
    requires Valid(st)
    ensures r.Ok? <==> forall p :: p in st.files && env.isMarkdown(p) ==> st.files[p].Record?
    ensures r.Ok? ==> forall n :: n in r.value <==> exists p :: p in st.files && env.isMarkdown(p) && st.files[p] == Record(n)
  {
    var r := ScanPaths(env, st, st.order);
    if r.Ok? then
      var md := MarkdownPaths(env, st.order);
      assert forall n :: n in r.value ==> exists p :: p in st.files && env.isMarkdown(p) && st.files[p] == Record(n) by {
        forall n | n in r.value
          ensures exists p :: p in st.files && env.isMarkdown(p) && st.files[p] == Record(n)
        {
          var k :| 0 <= k < |r.value| && r.value[k] == n;
          assert md[k] in md;
        }
      }
      assert forall p :: p in st.files && env.isMarkdown(p) ==> st.files[p].note in r.value by {
        forall p | p in st.files && env.isMarkdown(p)
          ensures st.files[p].note in r.value
        {
          assert p in md;
          var k :| 0 <= k < |md| && md[k] == p;
          assert st.files[p] == Record(r.value[k]);
        }
      }
      r
    else r
  }

  /**
   * The search filter: the items whose title the matcher accepts for `query`,
   * in their original relative order.
   */
  function FilterByTitle(items: seq<Note>, query: string, matches: (string, string) -> bool): (r: seq<Note>)
    ensures forall n :: n in r <==> n in items && matches(n.title, query)
    ensures |r| <= |items|
  {
    if |items| == 0 then []
    else if matches(items[0].title, query) then [items[0]] + FilterByTitle(items[1..], query, matches)
    else FilterByTitle(items[1..], query, matches)
  }

  /** Filtering a concatenation filters each part and keeps the parts in order. */
  lemma {:induction false} FilterAppend(a: seq<Note>, b: seq<Note>, query: string, matches: (string, string) -> bool)
    ensures FilterByTitle(a + b, query, matches) == FilterByTitle(a, query, matches) + FilterByTitle(b, query, matches)
  {
    if |a| > 0 {
      assert (a + b)[1..] == a[1..] + b;
      FilterAppend(a[1..], b, query, matches);
    } else {
      assert a + b == b;
    }
  }

  /** Filtering again with the same query changes nothing. */
  lemma {:induction false} FilterIdempotent(items: seq<Note>, query: string, matches: (string, string) -> bool)
    ensures FilterByTitle(FilterByTitle(items, query, matches), query, matches) == FilterByTitle(items, query, matches)
  {
    if |items| > 0 {
      FilterIdempotent(items[1..], query, matches);
    }
  }

  /** The state the loop carries: mode, note list, scratch note, search text and the file store. */
  datatype Session = Session(mode: InputMode, list: View.StatefulList<Note>, note: Note, search: string, store: Store)

  /** The effects of one iteration: a background sync with its commit message, and whether the loop ends. */
  datatype Effects = Effects(sync: Option<string>, quit: bool)

  /** The next session and the effects of one iteration. */
  datatype Stepped = Stepped(session: Session, effects: Effects)

  /** No sync and no quit. */
  const Quiet: Effects := Effects(None, false)

  /** The commit message of the sync that follows a save. */
  function CommitMessage(n: Note): (r: string)
    ensures |r| == |n.language| + |n.title| + 10
    ensures r[..8] == "update: "
    ensures r[8..8 + |n.language|] == n.language
    ensures r[8 + |n.language|..10 + |n.language|] == ", "
    ensures r[10 + |n.language|..] == n.title
  {
    "update: " + n.language + ", " + n.title
  }

  /**
   * The start of `run_app`: Normal mode, an empty scratch note under the
   * root, no search text, and the list holding the scan of the store with
   * nothing selected. The remote pull before it is not modelled.
   */
  function Init(env: Env, st: Store): (s: Session)
    requires Valid(st) && Scan(env, st).Ok?
    ensures s.mode == Normal && s.search == [] && s.store == st
    ensures s.note == New(env.root, "", "", "")
    ensures s.list == View.WithItems(Scan(env, st).value)
  {
    Session(Normal, View.WithItems(Scan(env, st).value), New(env.root, "", "", ""), [], st)
  }

  /** The Normal-mode keys that index the list do so in bounds, and `next`/`previous` do not underflow. */
  predicate NormalSafe(s: Session, k: KeyEvent)
  {
    if Ctrl(k, 's') then s.list.selectedNum.Some? ==> s.list.selectedNum.value < |s.list.items|
    else if Plain(k, Down) then |s.list.items| > 0
    else if Plain(k, Up) then |s.list.items| > 0 && (s.list.widget.Some? ==> s.list.widget.value <= |s.list.items|)
    else true
  }

  /** In the search box, a key that leaves the query empty triggers a scan, which must not fail. */
  predicate SearchSafe(env: Env, s: Session, k: KeyEvent)
    requires Valid(s.store)
  {
    |UpdateInputBuffer(s.mode, s.search, k).buffer| == 0 ==> Scan(env, s.store).Ok?
  }

  /** One iteration on this event runs without a panic. */
  predicate Safe(env: Env, s: Session, ev: Event)
  {
    && Valid(s.store)
    && match ev
       case OtherEvent => true
       case KeyInput(k) =>
         match s.mode
         case Normal => NormalSafe(s, k)
         case EditingSearch => SearchSafe(env, s, k)
         case _ => true
  }

  /**
   * Ctrl-s: when a note is selected, replaces it by a new note built from
   * the scratch note's language, title and contents, saves it, and on success
   * emits a sync; with nothing selected it does nothing.
   */
  function SaveSelected(env: Env, s: Session): (r: Stepped)
    requires Valid(s.store)
    requires s.list.selectedNum.Some? ==> s.list.selectedNum.value < |s.list.items|
    ensures Valid(r.session.store)
    ensures s.list.selectedNum.None? ==> r == Stepped(s, Quiet)
    ensures s.list.selectedNum.Some? ==>
              var i := s.list.selectedNum.value;
              var saved := New(env.root, s.note.language, s.note.title, s.note.contents);
              && |r.session.list.items| == |s.list.items|
              && r.session.list.items[i] == saved
              && (forall j :: 0 <= j < |s.list.items| && j != i ==> r.session.list.items[j] == s.list.items[j])
              && r.session.store.files == s.store.files[saved.filePath := Record(saved)]
              && Load(r.session.store, saved.filePath) == Ok(saved)
              && r.effects == Effects(Some(CommitMessage(saved)), false)
              && r.session.list.selectedNum == s.list.selectedNum && r.session.list.widget == s.list.widget
              && r.session.(list := s.list, store := s.store) == s
  {
    match View.GetSelectedNum(s.list)
    case None => Stepped(s, Quiet)
    case Some(index) =>
      var saved := New(env.root, s.note.language, s.note.title, s.note.contents);
      var list := s.list.(items := s.list.items[index := saved]);
      var written := Save(s.store, list.items[index]);
      var next := s.(list := list, store := written.store);
      match written.result
      case Ok(_) => Stepped(next, Effects(Some(CommitMessage(s.note)), false))
      case Err(_) => Stepped(next, Quiet)
  }

  /** Down and Up: after the cursor moved, the scratch note becomes a copy of the newly selected note. */
  function Navigate(s: Session, moved: View.StatefulList<Note>): (r: Stepped)
    requires moved.items == s.list.items
    requires moved.selectedNum.Some? && moved.selectedNum.value < |moved.items|
    ensures r.session == s.(list := moved, note := s.list.items[moved.selectedNum.value])
    ensures r.effects == Quiet
  {
    match View.GetSelectedNum(moved)
    case Some(index) => Stepped(s.(list := moved, note := moved.items[index]), Quiet)
    case None => Stepped(s.(list := moved), Quiet)
  }

  /** The Normal-mode arm of the loop. */
  function NormalKey(env: Env, s: Session, k: KeyEvent): (r: Stepped)
    requires s.mode == Normal && Valid(s.store) && NormalSafe(s, k)
    ensures Valid(r.session.store)
    ensures r.effects.quit <==> Ctrl(k, 'q')
    ensures r.effects.sync.Some? <==> Ctrl(k, 's') && s.list.selectedNum.Some?
    ensures r.effects.sync.None? ==> r.session.store == s.store
    ensures Plain(k, Enter) ==> r.session == s.(mode := EditingTitle)
    ensures Plain(k, Tab) ==> r.session == s.(mode := EditingSearch)
    ensures Ctrl(k, 'q') ==> r.session == s
    ensures Ctrl(k, 'n') ==>
              var blank := New(env.root, "", "", "");
              && r.session.list.items == s.list.items + [blank]
              && r.session.note == blank
              && r.session.list.selectedNum == Some(|s.list.items|)
              && r.session.list.widget == Some(|s.list.items|)
              && r.session.(list := s.list, note := s.note) == s
    ensures Ctrl(k, 's') ==> r == SaveSelected(env, s)
    ensures Plain(k, Left) ==> r.session == s.(list := View.Unselect(s.list))
    ensures Plain(k, Down) ==> r == Navigate(s, View.Next(s.list))
    ensures Plain(k, Up) ==> r == Navigate(s, View.Previous(s.list))
    ensures (&& !Plain(k, Enter) && !Plain(k, Tab) && !Ctrl(k, 'q') && !Ctrl(k, 'n') && !Ctrl(k, 's')
             && !Plain(k, Left) && !Plain(k, Down) && !Plain(k, Up)) ==> r == Stepped(s, Quiet)
  {
    if Plain(k, Enter) then Stepped(s.(mode := EditingTitle), Quiet)
    else if Plain(k, Tab) then Stepped(s.(mode := NextMode(s.mode)), Quiet)
    else if Ctrl(k, 'q') then Stepped(s, Effects(None, true))
    else if Ctrl(k, 'n') then
      var blank := New(env.root, "", "", "");
      var list := s.list.(items := s.list.items + [blank]);
      Stepped(s.(note := blank, list := View.SetSelectedNum(list, |list.items| - 1)), Quiet)
    else if Ctrl(k, 's') then SaveSelected(env, s)
    else if Plain(k, Left) then Stepped(s.(list := View.Unselect(s.list)), Quiet)
    else if Plain(k, Down) then Navigate(s, View.Next(s.list))
    else if Plain(k, Up) then Navigate(s, View.Previous(s.list))
    else Stepped(s, Quiet)
  }

  /**
   * The search arm: the key edits the query; Enter then keeps the items whose
   * title matches it; and whenever the query is empty afterwards the list is
   * replaced by a new scan of the store.
   */
  function SearchKey(env: Env, s: Session, k: KeyEvent): (r: Stepped)
    requires s.mode == EditingSearch && Valid(s.store) && SearchSafe(env, s, k)
    ensures r.effects == Quiet
    ensures Edit(r.session.mode, r.session.search) == UpdateInputBuffer(s.mode, s.search, k)
    ensures |r.session.search| == 0 ==> r.session.list.items == Scan(env, s.store).value
    ensures |r.session.search| > 0 && Plain(k, Enter) ==>
              r.session.list.items == FilterByTitle(s.list.items, r.session.search, env.matches)
    ensures |r.session.search| > 0 && !Plain(k, Enter) ==> r.session.list.items == s.list.items
    ensures r.session.(mode := s.mode, search := s.search, list := s.list) == s
    ensures r.session.list.selectedNum == s.list.selectedNum && r.session.list.widget == s.list.widget
  {
    var e := UpdateInputBuffer(s.mode, s.search, k);
    var filtered := if Plain(k, Enter) then FilterByTitle(s.list.items, e.buffer, env.matches) else s.list.items;
    var items := if |e.buffer| == 0 then Scan(env, s.store).value else filtered;
    Stepped(s.(mode := e.mode, search := e.buffer, list := s.list.(items := items)), Quiet)
  }

  /** The buffer a mode's keystrokes edit (Normal mode edits none). */
  function ActiveBuffer(s: Session): string
  {
    match s.mode
    case Normal => []
    case EditingSearch => s.search
    case EditingTitle => s.note.title
    case EditingLanguage => s.note.language
    case EditingCode => s.note.contents
  }

  /** The session with the active buffer replaced. */
  function WithBuffer(s: Session, b: string): Session
  {
    match s.mode
    case Normal => s
    case EditingSearch => s.(search := b)
    case EditingTitle => s.(note := s.note.(title := b))
    case EditingLanguage => s.(note := s.note.(language := b))
    case EditingCode => s.(note := s.note.(contents := b))
  }

  /**
   * The title, language and code arms: the key edits the scratch note's field
   * of the current mode; in the code box Enter also appends a line break.
   */
  function EditNote(s: Session, k: KeyEvent): (r: Stepped)
    requires s.mode == EditingTitle || s.mode == EditingLanguage || s.mode == EditingCode
    ensures r.effects == Quiet
    ensures var e := UpdateInputBuffer(s.mode, ActiveBuffer(s), k);
            && r.session.mode == e.mode
            && (s.mode != EditingCode || !Plain(k, Enter) ==> r.session == WithBuffer(s, e.buffer).(mode := e.mode))
    ensures s.mode == EditingCode && Plain(k, Enter) ==>
              r.session == s.(note := s.note.(contents := s.note.contents + "\n"))
    ensures r.session.list == s.list && r.session.store == s.store && r.session.search == s.search
  {
    var e := UpdateInputBuffer(s.mode, ActiveBuffer(s), k);
    match s.mode
    case EditingTitle => Stepped(s.(mode := e.mode, note := s.note.(title := e.buffer)), Quiet)
    case EditingLanguage => Stepped(s.(mode := e.mode, note := s.note.(language := e.buffer)), Quiet)
    case EditingCode =>
      var contents := if Plain(k, Enter) then e.buffer + "\n" else e.buffer;
      Stepped(s.(mode := e.mode, note := s.note.(contents := contents)), Quiet)
  }

  /**
   * One iteration of the `run_app` loop on one input event. The quit flag is
   * raised only by Ctrl-q in Normal mode, a sync is emitted only by Ctrl-s in
   * Normal mode, and the store changes only together with a sync.
   */
  function Step(env: Env, s: Session, ev: Event): (r: Stepped)
    requires Safe(env, s, ev)
    ensures Valid(r.session.store)
    ensures r.effects.quit <==> s.mode == Normal && ev.KeyInput? && Ctrl(ev.key, 'q')
    ensures r.effects.sync.Some? ==> s.mode == Normal && ev.KeyInput? && Ctrl(ev.key, 's')
    ensures r.effects.sync.None? ==> r.session.store == s.store
    ensures ev.OtherEvent? ==> r == Stepped(s, Quiet)
  {
    match ev
    case OtherEvent => Stepped(s, Quiet)
    case KeyInput(k) =>
      match s.mode
      case Normal => NormalKey(env, s, k)
      case EditingSearch => SearchKey(env, s, k)
      case _ => EditNote(s, k)
  }
}
