/**
 * The note record of `src/note.rs` and its persistence. The file system is a
 * store mapping paths to file contents; a file holds either a serialised note
 * record or something that does not decode as one. The store also keeps the
 * order in which its files were created, which is the order a directory walk
 * visits them in this model.
 */
module Notes {
  import opened Wrappers

  /** A snippet and the path it is stored at. */
  datatype Note = Note(filePath: string, title: string, language: string, contents: string)

  /** The file-name extension of a stored note. */
  const Extension: string := ".md"

  /** Path joining: the segments separated by a slash. */
  function Join(base: string, segment: string): string
  {
    base + "/" + segment
  }

  /** `Note::new`: the note with its derived path `root/language/title.md`. */
  function New(root: string, language: string, title: string, contents: string): (n: Note)
    ensures n.title == title && n.language == language && n.contents == contents
    ensures n.filePath == root + "/" + language + "/" + title + ".md"
  {
    Note(Join(Join(root, language), title + Extension), title, language, contents)
  }

  /** What a file holds: a decodable note record, or bytes that are not one. */
  datatype FileData = Record(note: Note) | Unreadable(raw: string)

  /** The files under the storage root, and the order they were created in. */
  datatype Store = Store(files: map<string, FileData>, order: seq<string>)

  /** No path occurs twice. */
  predicate Distinct(paths: seq<string>)
  {
    forall i, j :: 0 <= i < j < |paths| ==> paths[i] != paths[j]
  }

  /** The creation order lists every file of the store exactly once. */
  predicate Valid(st: Store)
  {
    && Distinct(st.order)
    && (forall p :: p in st.order ==> p in st.files)
    && (forall p :: p in st.files ==> p in st.order)
  }

  /** The store with no files. */
  const Empty: Store := Store(map[], [])

  /** `paths` without `p`, the others kept in order. */
  function Without(paths: seq<string>, p: string): (r: seq<string>)
    ensures forall q :: q in r <==> q in paths && q != p
    ensures Distinct(paths) ==> Distinct(r)
    ensures p !in paths ==> r == paths
  {
    if |paths| == 0 then []
    else if paths[0] == p then Without(paths[1..], p)
    else
      var rest := Without(paths[1..], p);
      assert Distinct(paths) ==> Distinct(paths[1..]) && paths[0] !in paths[1..];
      [paths[0]] + rest
  }

  /** Errors of the store operations. */
  datatype FsError = NotFound | AlreadyExists | Undecodable

  /** The store after an operation, and what the operation returned. */
  datatype Written<T> = Written(store: Store, result: Result<T, FsError>)

  /** `check_file_exist`: whether a file is present at the note's path. */
  predicate CheckFileExist(st: Store, n: Note)
  {
    n.filePath in st.files
  }

  /** Removing a file from the store. */
  function RemoveFile(st: Store, p: string): (r: Store)
    requires Valid(st)
    ensures Valid(r)
    ensures r.files == st.files - {p}
  {
    Store(st.files - {p}, Without(st.order, p))
  }

  /** Creating a new file; the store refuses a path that is already taken. */
  function CreateNew(st: Store, p: string, data: FileData): (r: Written<()>)
    requires Valid(st)
    ensures Valid(r.store)
    ensures p in st.files ==> r.result == Err(AlreadyExists) && r.store == st
    ensures p !in st.files ==> r.result == Ok(()) && r.store.files == st.files[p := data]
  {
    if p in st.files then Written(st, Err(AlreadyExists))
    else Written(Store(st.files[p := data], st.order + [p]), Ok(()))
  }

  /** `delete`: removes the note's file when it exists, and fails otherwise. */
  function Delete(st: Store, n: Note): (r: Written<()>)
    requires Valid(st)
    ensures Valid(r.store)
    ensures r.result.Ok? <==> CheckFileExist(st, n)
    ensures r.result.Ok? ==> r.store.files == st.files - {n.filePath}
    ensures r.result.Err? ==> r.result.error == NotFound && r.store == st
    ensures !CheckFileExist(r.store, n)
  {
    if CheckFileExist(st, n) then Written(RemoveFile(st, n.filePath), Ok(()))
    else Written(st, Err(NotFound))
  }

  /**
   * `save`: deletes the file at the note's own path, ignoring a failure, then
   * creates it afresh holding the note's record and returns the path. The
   * file thereby moves to the end of the creation order.
   */
  function Save(st: Store, n: Note): (r: Written<string>)
    requires Valid(st)
    ensures Valid(r.store)
    ensures r.result == Ok(n.filePath)
    ensures r.store.files == st.files[n.filePath := Record(n)]
    ensures r.store.order == Without(st.order, n.filePath) + [n.filePath]
  {
    var cleared := Delete(st, n).store;
    var created := CreateNew(cleared, n.filePath, Record(n));
    match created.result
    case Ok(_) => Written(created.store, Ok(n.filePath))
    case Err(e) => Written(created.store, Err(e))
  }

  /**
   * `load`: decodes the file at `path`. The path stored inside the record,
   * not the path read from, becomes the note's path.
   */
  function Load(st: Store, path: string): (r: Result<Note, FsError>)
    requires path in st.files
    ensures r.Ok? <==> st.files[path].Record?
    ensures r.Ok? ==> Record(r.value) == st.files[path]
    ensures r.Err? ==> r.error == Undecodable
  {
    match st.files[path]
    case Record(note) => Ok(Note(note.filePath, note.title, note.language, note.contents))
    case Unreadable(_) => Err(Undecodable)
  }

  /** Loading what was just saved gives back the saved note, field by field. */
  lemma {:induction false} LoadAfterSave(st: Store, n: Note)
    requires Valid(st)
    ensures Load(Save(st, n).store, n.filePath) == Ok(n)
  {
  }

  /** Saving the same note twice leaves the same store, creation order included, as saving it once. */
  lemma {:induction false} SaveIdempotent(st: Store, n: Note)
    requires Valid(st)
    ensures Save(Save(st, n).store, n).store == Save(st, n).store
  {
    var p := n.filePath;
    WithoutAppend(Without(st.order, p), p);
    WithoutTwice(st.order, p);
  }

  /** Removing `p` ignores a trailing `p`. */
  lemma {:induction false} WithoutAppend(paths: seq<string>, p: string)
    ensures Without(paths + [p], p) == Without(paths, p)
  {
    if |paths| == 0 {
      assert Without([p], p) == Without([], p);
    } else {
      assert (paths + [p])[1..] == paths[1..] + [p];
      WithoutAppend(paths[1..], p);
    }
  }

  /** Removing `p` a second time changes nothing. */
  lemma {:induction false} WithoutTwice(paths: seq<string>, p: string)
    ensures Without(Without(paths, p), p) == Without(paths, p)
  {
  }

  /**
   * `save` touches only its own path. In particular, after a note is renamed,
   * saving it under its new path leaves the file at its old path in place.
   */
  lemma {:induction false} SaveLeavesOtherPaths(st: Store, n: Note, other: string)
    requires Valid(st)
    requires other != n.filePath
    ensures other in Save(st, n).store.files <==> other in st.files
    ensures other in st.files ==> Save(st, n).store.files[other] == st.files[other]
  {
  }

  /** A renamed note saved under its new title leaves its previous file behind, still loadable. */
  lemma {:induction false} RenameLeavesOrphan(st: Store, root: string, language: string, oldTitle: string, newTitle: string, contents: string)
    requires Valid(st)
    requires oldTitle != newTitle
    ensures var before := New(root, language, oldTitle, contents);
            var renamed := New(root, language, newTitle, contents);
            var after := Save(Save(st, before).store, renamed).store;
            before.filePath in after.files && Load(after, before.filePath) == Ok(before)
  {
    var before := New(root, language, oldTitle, contents);
    var renamed := New(root, language, newTitle, contents);
    var prefix := root + "/" + language + "/";
    assert before.filePath == prefix + (oldTitle + Extension);
    assert renamed.filePath == prefix + (newTitle + Extension);
    AppendCancel(prefix, oldTitle, newTitle, Extension);
  }

  /** A shared prefix and suffix can be cancelled from equal strings. */
  lemma {:induction false} AppendCancel(prefix: string, a: string, b: string, suffix: string)
    ensures prefix + (a + suffix) == prefix + (b + suffix) ==> a == b
  {
    if prefix + (a + suffix) == prefix + (b + suffix) {
      assert a + suffix == (prefix + (a + suffix))[|prefix|..];
      assert b + suffix == (prefix + (b + suffix))[|prefix|..];
      assert a == (a + suffix)[..|a|];
      assert b == (b + suffix)[..|b|];
    }
  }

  /** The unit test of `Note::new`. */
  lemma NewUnitTest()
    ensures New("./target/temp", "python", "hello", "print('hello world')")
         == Note("./target/temp/python/hello.md", "hello", "python", "print('hello world')")
  {
  }

  /** The unit-test life cycle: absent before the save, present after it, and then deleted without error. */
  lemma {:induction false} Lifecycle(st: Store, n: Note)
    requires Valid(st) && !CheckFileExist(st, n)
    ensures CheckFileExist(Save(st, n).store, n)
    ensures Delete(Save(st, n).store, n).result == Ok(())
    ensures Delete(Save(st, n).store, n).store.files == st.files
    ensures Delete(st, n).result == Err(NotFound)
  {
  }
}
