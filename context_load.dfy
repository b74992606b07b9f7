/** The `/context_load` command (custom_aider/commands/context_load_command.py): the listing
    of saved contexts, the lookup of a named one (the backup directory first), the check of
    the four required fields, and the restore sequence on the host's coder: reset, then an
    `/add` of the files that still exist, then the saved messages appended to the done
    messages. The working directory is a value: the directories that exist and, for each
    file, what reading it as JSON gives. */
module ContextLoad {
  import opened Util
  import opened Ordering
  import opened Host

  const BackupDir := ".extn_aider/temp/context_backup"
  const CreateDir := ".extn_aider/temp/context_create"
  const NoFilesText := "No context files found in .extn_aider/temp/context_backup/ or .extn_aider/temp/context_create/"
  const LoadErrorPrefix := "Error loading context file: "
  const MissingFields := "Missing required fields in context file"
  const RequiredFields := ["timestamp", "model", "files", "messages"]

  /** What `open` and `json.load` make of a file. */
  datatype Stored =
    | Unreadable(reason: string) // `open` or the read raised
    | NotJson(reason: string)    // `json.load` raised
    | Parsed(value: Json)

  /** The working directory: existing directories and existing files, by relative path. */
  datatype Disk = Disk(dirs: set<string>, files: map<string, Stored>)

  /** `Path(p).exists()`. */
  predicate Exists(disk: Disk, p: string) {
    p in disk.dirs || p in disk.files
  }

  // ---------------------------------------------------------------- listing

  /** `p` is what `d.glob('*.json')` yields: an entry directly inside `d` whose name ends in `.json`. */
  predicate IsJsonEntry(p: string, d: string) {
    StartsWith(p, d + "/") && '/' !in p[|d| + 1..] && EndsWith(p[|d| + 1..], ".json")
  }

  function DirEntries(disk: Disk, d: string): set<string> {
    set p | p in disk.files.Keys + disk.dirs && IsJsonEntry(p, d)
  }

  /** The paths `_list_context_files` gathers: the JSON entries of each directory that exists. */
  function Listing(disk: Disk): set<string> {
    (if BackupDir in disk.dirs then DirEntries(disk, BackupDir) else {})
    + (if CreateDir in disk.dirs then DirEntries(disk, CreateDir) else {})
  }

  /** The entries of a directory, in some order (the order `glob` yields them in is not fixed). */
  method EntriesOf(entries: set<string>) returns (r: seq<string>)
    ensures Distinct(r) && forall p :: p in r <==> p in entries
  {
    r := [];
    var rest := entries;
    while rest != {}
      invariant rest <= entries && Distinct(r)
      invariant forall p :: p in r <==> p in entries && p !in rest
      decreases rest
    {
      var p :| p in rest;
      r := r + [p];
      rest := rest - {p};
    }
  }

  /** Every backup path sorts before every create path: the two directory names first differ
      at `b` against `c`. */
  lemma BackupBeforeCreate(a: string, b: string)
    requires StartsWith(a, BackupDir + "/") && StartsWith(b, CreateDir + "/")
    ensures Lt(a, b)
  {
    var p := ".extn_aider/temp/context_";
    assert (BackupDir + "/")[..|p| + 1] == p + ['b'];
    assert (CreateDir + "/")[..|p| + 1] == p + ['c'];
    assert a == p + ['b'] + a[|p| + 1..] by { assert a[..|p| + 1] == p + ['b']; }
    assert b == p + ['c'] + b[|p| + 1..] by { assert b[..|p| + 1] == p + ['c']; }
    LtAtFirstDifference(p, 'b', 'c', a[|p| + 1..], b[|p| + 1..]);
  }

  lemma BackupAndCreateDisjoint(p: string)
    requires StartsWith(p, BackupDir + "/")
    ensures !StartsWith(p, CreateDir + "/")
  {
    assert p[25] == (BackupDir + "/")[25];
  }

  /** In a strictly sorted list of context paths no create path comes before a backup path. */
  ghost predicate BackupFirst(r: seq<string>) {
    forall i, j :: 0 <= i < j < |r| && StartsWith(r[i], CreateDir + "/") ==> !StartsWith(r[j], BackupDir + "/")
  }

  lemma SortedBackupFirst(r: seq<string>)
    requires StrictlySorted(r)
    ensures BackupFirst(r)
  {
    forall i, j | 0 <= i < j < |r| && StartsWith(r[i], CreateDir + "/")
      ensures !StartsWith(r[j], BackupDir + "/")
    {
      if StartsWith(r[j], BackupDir + "/") {
        BackupBeforeCreate(r[j], r[i]);
        LeAntisym(r[i], r[j]);
      }
    }
  }

  /** `_list_context_files()`: the listing, sorted; as Python orders paths, every backup file
      comes before every create file and each directory's files are in name order. */
  method ListContextFiles(disk: Disk) returns (r: seq<string>)
    ensures StrictlySorted(r) && BackupFirst(r)
    ensures forall p :: p in r <==> p in Listing(disk)
  {
    var found: seq<string> := [];
    if BackupDir in disk.dirs {
      found := EntriesOf(DirEntries(disk, BackupDir));
    }
    if CreateDir in disk.dirs {
      var more := EntriesOf(DirEntries(disk, CreateDir));
      forall i, j | 0 <= i < |found| && 0 <= j < |more| ensures found[i] != more[j] {
        assert found[i] in DirEntries(disk, BackupDir) && more[j] in DirEntries(disk, CreateDir);
        BackupAndCreateDisjoint(found[i]);
      }
      found := found + more;
    }
    SortDistinct(found);
    r := Sort(found);
    forall p ensures p in r <==> p in found {
      InMultiset(r, found, p);
    }
    SortedBackupFirst(r);
  }

  // ---------------------------------------------------------------- lookup

  /** The path the command loads for `filename`: the backup directory wins when both have it. */
  function Locate(disk: Disk, filename: string): (r: Option<string>)
    ensures r.None? <==> !Exists(disk, BackupDir + "/" + filename) && !Exists(disk, CreateDir + "/" + filename)
    ensures r.Some? ==> Exists(disk, r.value)
    ensures Exists(disk, BackupDir + "/" + filename) ==> r == Some(BackupDir + "/" + filename)
    ensures r.Some? ==> r.value == BackupDir + "/" + filename || r.value == CreateDir + "/" + filename
  {
    if Exists(disk, BackupDir + "/" + filename) then Some(BackupDir + "/" + filename)
    else if Exists(disk, CreateDir + "/" + filename) then Some(CreateDir + "/" + filename)
    else None
  }

  /** The search loop of `cmd_context_load`, stopping at the first directory that has the file. */
  method FindContextFile(disk: Disk, filename: string) returns (r: Option<string>)
    ensures r == Locate(disk, filename)
  {
    var dirs := [BackupDir, CreateDir];
    r := None;
    var k := 0;
    while k < |dirs|
      invariant 0 <= k <= |dirs|
      invariant r.None?
      invariant forall m :: 0 <= m < k ==> !Exists(disk, dirs[m] + "/" + filename)
    {
      var path := dirs[k] + "/" + filename;
      if Exists(disk, path) {
        r := Some(path);
        assert k == 0 || k == 1;
        assert r == Locate(disk, filename) by {
          if k == 1 { assert !Exists(disk, dirs[0] + "/" + filename); }
        }
        break;
      }
      k := k + 1;
    }
    if r.None? {
      assert !Exists(disk, dirs[0] + "/" + filename) && !Exists(disk, dirs[1] + "/" + filename);
    }
  }

  // ---------------------------------------------------------------- validation

  /** The name Python gives the type of a JSON scalar, as it appears in the TypeError. */
  function TypeName(data: Json): string {
    match data
    case JNull => "NoneType"
    case JBool(_) => "bool"
    case JFloat(_) => "float"
    case _ => "int"
  }

  /** The record holds every required field. */
  predicate HasRequiredFields(data: Json) {
    forall f :: f in RequiredFields ==> PyIn(f, data) == Some(true)
  }

  datatype Loaded = Loaded(data: Json) | LoadError(message: string)

  /** `_load_context_file(path)`: the parsed record when it holds all four fields; otherwise an
      error whose text starts with "Error loading context file: ". */
  function LoadContextFile(disk: Disk, path: string): (r: Loaded)
    ensures r.Loaded? <==> path in disk.files && disk.files[path].Parsed? && HasRequiredFields(disk.files[path].value)
    ensures r.Loaded? ==> r.data == disk.files[path].value
    ensures r.LoadError? ==> StartsWith(r.message, LoadErrorPrefix)
    ensures r.LoadError? && path in disk.files && disk.files[path].Parsed? && disk.files[path].value.JObject?
            ==> r.message == LoadErrorPrefix + MissingFields
  {
    if path !in disk.files then LoadError(LoadErrorPrefix + "[Errno 21] Is a directory: '" + path + "'")
    else match disk.files[path]
      case Unreadable(e) => LoadError(LoadErrorPrefix + e)
      case NotJson(e) => LoadError(LoadErrorPrefix + e)
      case Parsed(data) =>
        match FieldsCheck(data, RequiredFields)
        case None => LoadError(LoadErrorPrefix + "argument of type '" + TypeName(data) + "' is not iterable")
        case Some(true) => Loaded(data)
        case Some(false) => LoadError(LoadErrorPrefix + MissingFields)
  }

  /** `all(field in data for field in fields)`, stopping at the first field that is absent. */
  function FieldsCheck(data: Json, fields: seq<string>): (r: Option<bool>)
    ensures r == Some(true) <==> forall f :: f in fields ==> PyIn(f, data) == Some(true)
    ensures data.JObject? || data.JList? || data.JString? ==> r.Some?
    ensures fields != [] && r.None? ==> PyIn(fields[0], data).None?
  {
    if fields == [] then Some(true)
    else match PyIn(fields[0], data)
      case None => None
      case Some(false) => Some(false)
      case Some(true) => FieldsCheck(data, fields[1..])
  }

  // ---------------------------------------------------------------- restore


  /** The file names of a record, each a string; `None` is the TypeError raised when the
      record is not an object, when its files are not iterable, or when one is not a
      string (`abs_root_path` joins it onto a path). */
  function FileNames(data: Json): (r: Option<seq<string>>)
    ensures r.Some? ==> data.JObject? && "files" in data.fields && Iterate(data.fields["files"]).Some?
    ensures r.Some? ==> var items := Iterate(data.fields["files"]).value;
                        |r.value| == |items| && forall k :: 0 <= k < |items| ==> items[k] == JString(r.value[k])
    ensures data.JObject? && "files" in data.fields && data.fields["files"].JList?
            && (forall k :: 0 <= k < |data.fields["files"].items| ==> data.fields["files"].items[k].JString?)
            ==> r.Some?
  {
    if !data.JObject? || "files" !in data.fields then None
    else match Iterate(data.fields["files"])
      case None => None
      case Some(items) =>
        if forall k :: 0 <= k < |items| ==> items[k].JString? then
          Some(seq(|items|, k requires 0 <= k < |items| => items[k].s))
        else None
  }

  /** What `done_messages.extend(data['messages'])` appends; `None` on a TypeError. */
  function MessageItems(data: Json): Option<seq<Json>> {
    if !data.JObject? || "messages" !in data.fields then None else Iterate(data.fields["messages"])
  }

  /** The names that exist, in their order. */
  function Kept(names: seq<string>, existing: set<string>): (r: seq<string>)
    decreases |names|
    ensures forall x :: x in r <==> x in names && x in existing
    ensures |r| <= |names|
  {
    if names == [] then []
    else Kept(names[..|names| - 1], existing)
         + (if names[|names| - 1] in existing then [names[|names| - 1]] else [])
  }

  /** The names that do not exist, in their order: each gets a "File not found" warning. */
  function Missing(names: seq<string>, existing: set<string>): (r: seq<string>)
    decreases |names|
    ensures forall x :: x in r <==> x in names && x !in existing
  {
    if names == [] then []
    else Missing(names[..|names| - 1], existing)
         + (if names[|names| - 1] !in existing then [names[|names| - 1]] else [])
  }

  /** Every name is kept or warned about, exactly once. */
  lemma {:induction false} KeptMissingPartition(names: seq<string>, existing: set<string>)
    decreases |names|
    ensures |Kept(names, existing)| + |Missing(names, existing)| == |names|
  {
    if names != [] {
      KeptMissingPartition(names[..|names| - 1], existing);
    }
  }

  /** Keeping distributes over concatenation: the order of the names, repeats included, is
      kept, and each name stays or goes on its own. */
  lemma {:induction false} KeptConcat(a: seq<string>, b: seq<string>, existing: set<string>)
    decreases |b|
    ensures Kept(a + b, existing) == Kept(a, existing) + Kept(b, existing)
  {
    if b == [] {
      assert a + b == a;
    } else {
      var init, last := b[..|b| - 1], b[|b| - 1];
      var piece := if last in existing then [last] else [];
      assert (a + b)[..|a + b| - 1] == a + init && (a + b)[|a + b| - 1] == last;
      assert Kept(a + b, existing) == Kept(a + init, existing) + piece;
      KeptConcat(a, init, existing);
      assert Kept(b, existing) == Kept(init, existing) + piece;
    }
  }

  /** The same for the names warned about. */
  lemma {:induction false} MissingConcat(a: seq<string>, b: seq<string>, existing: set<string>)
    decreases |b|
    ensures Missing(a + b, existing) == Missing(a, existing) + Missing(b, existing)
  {
    if b == [] {
      assert a + b == a;
    } else {
      var init, last := b[..|b| - 1], b[|b| - 1];
      var piece := if last !in existing then [last] else [];
      assert (a + b)[..|a + b| - 1] == a + init && (a + b)[|a + b| - 1] == last;
      assert Missing(a + b, existing) == Missing(a + init, existing) + piece;
      MissingConcat(a, init, existing);
      assert Missing(b, existing) == Missing(init, existing) + piece;
    }
  }

  /** A single name is kept exactly when it exists. */
  lemma KeptSingle(x: string, existing: set<string>)
    ensures Kept([x], existing) == if x in existing then [x] else []
    ensures Missing([x], existing) == if x in existing then [] else [x]
  {
    assert [x][..0] == [];
  }

  /** When every file exists, all of them are kept, in their order. */
  lemma {:induction false} KeptAll(names: seq<string>, existing: set<string>)
    requires forall x :: x in names ==> x in existing
    decreases |names|
    ensures Kept(names, existing) == names
  {
    if names != [] {
      var init := names[..|names| - 1];
      forall x | x in init ensures x in existing { assert x in names; }
      KeptAll(init, existing);
      assert names == init + [names[|names| - 1]];
    }
  }

  /** The loop that builds `files_to_add`. */
  method KeepExisting(names: seq<string>, existing: set<string>) returns (kept: seq<string>, missing: seq<string>)
    ensures kept == Kept(names, existing) && missing == Missing(names, existing)
  {
    kept, missing := [], [];
    for i := 0 to |names|
      invariant kept == Kept(names[..i], existing) && missing == Missing(names[..i], existing)
    {
      assert names[..i + 1][..i] == names[..i];
      if names[i] in existing {
        kept := kept + [names[i]];
      } else {
        missing := missing + [names[i]];
      }
    }
    assert names[..|names|] == names;
  }

  /** The `/add` requests issued for the kept files: one, space-joined, or none. */
  function AddRequests(kept: seq<string>): seq<string> {
    if kept == [] then [] else [Join(" ", kept)]
  }

  datatype LoadOutcome =
    | Listed(paths: seq<string>)       // "Available context files:" and one line per path
    | NoContextFiles                   // NoFilesText
    | NotFound(filename: string)       // "Context file not found: ..."
    | LoadFailed(message: string)      // "Error loading context: " + the loader's message
    | RestoreFailed                    // "Error loading context: ..." after the reset
    | Restored(path: string, added: seq<string>, missing: seq<string>, messageCount: nat)

  /** `cmd_context_load(args)`. Listing, a missing file and a record that fails the check leave
      the coder as it was; otherwise the coder is reset, the existing files are requested,
      and the saved messages become the done messages. A record that passes the check but
      has the wrong shape fails after the reset, leaving the context cleared. */
  method CmdContextLoad(coder: Coder, args: string, disk: Disk, existing: set<string>) returns (outcome: LoadOutcome)
    modifies coder
    ensures Strip(args) == [] ==> outcome.Listed? || outcome.NoContextFiles?
    ensures outcome.Listed? ==>
              && outcome.paths != [] && StrictlySorted(outcome.paths) && BackupFirst(outcome.paths)
              && forall p :: p in outcome.paths <==> p in Listing(disk)
    ensures outcome.NoContextFiles? ==> Listing(disk) == {}
    ensures outcome.Listed? || outcome.NoContextFiles? ==> Strip(args) == []
    ensures Strip(args) != [] && Locate(disk, Strip(args)).None? ==> outcome == NotFound(Strip(args))
    ensures outcome.NotFound? ==> Strip(args) != [] && Locate(disk, Strip(args)).None?
    ensures Strip(args) != [] && Locate(disk, Strip(args)).Some? && LoadContextFile(disk, Locate(disk, Strip(args)).value).Loaded? ==> outcome.Restored? || outcome.RestoreFailed?
    ensures (outcome.Listed? || outcome.NoContextFiles? || outcome.NotFound? || outcome.LoadFailed?) ==> unchanged(coder)
    ensures outcome.LoadFailed? <==> Strip(args) != [] && Locate(disk, Strip(args)).Some?
                                     && LoadContextFile(disk, Locate(disk, Strip(args)).value).LoadError?
    ensures outcome.LoadFailed? ==> outcome.message == LoadContextFile(disk, Locate(disk, Strip(args)).value).message
    ensures (outcome.RestoreFailed? || outcome.Restored?) ==>
              var data := LoadContextFile(disk, Locate(disk, Strip(args)).value).data;
              && Strip(args) != [] && Locate(disk, Strip(args)).Some?
              && LoadContextFile(disk, Locate(disk, Strip(args)).value).Loaded?
              && coder.chatFiles == [] && coder.curMessages == [] && coder.modelName == old(coder.modelName)
              && coder.addRequests == old(coder.addRequests)
                   + (if FileNames(data).Some? then AddRequests(Kept(FileNames(data).value, existing)) else [])
              && coder.doneMessages == (if FileNames(data).Some? && MessageItems(data).Some? then MessageItems(data).value else [])
              && (outcome.Restored? <==> FileNames(data).Some? && MessageItems(data).Some?)
    ensures outcome.Restored? ==>
              var data := LoadContextFile(disk, Locate(disk, Strip(args)).value).data;
              && outcome.path == Locate(disk, Strip(args)).value
              && outcome.added == Kept(FileNames(data).value, existing)
              && outcome.missing == Missing(FileNames(data).value, existing)
              && outcome.messageCount == |MessageItems(data).value|
  {
    var filename := Strip(args);
    if filename == [] {
      var paths := ListContextFiles(disk);
      if paths == [] {
        assert forall p :: p !in Listing(disk);
        return NoContextFiles;
      }
      return Listed(paths);
    }
    var found := FindContextFile(disk, filename);
    if found.None? {
      return NotFound(filename);
    }
    var path := found.value;
    var loaded := LoadContextFile(disk, path);
    if loaded.LoadError? {
      return LoadFailed(loaded.message);
    }
    var data := loaded.data;
    coder.Reset();
    var names := FileNames(data);
    if names.None? {
      return RestoreFailed;
    }
    var kept, missing := KeepExisting(names.value, existing);
    if kept != [] {
      coder.RequestAdd(Join(" ", kept));
    }
    var messages := MessageItems(data);
    if messages.None? {
      return RestoreFailed;
    }
    coder.doneMessages := coder.doneMessages + messages.value;
    return Restored(path, kept, missing, |messages.value|);
  }

  /** A list naming the four fields passes the check, yet restoring it fails after the reset. */
  lemma ListRecordPassesCheck()
    ensures var data := JList([JString("timestamp"), JString("model"), JString("files"), JString("messages")]);
            HasRequiredFields(data) && FileNames(data).None?
  {
  }

  /** The entry name of a listed path: what `file.name` gives. */
  function EntryName(p: string): (r: string)
    decreases |p|
    ensures '/' !in r
  {
    if p == [] || p[|p| - 1] == '/' then [] else EntryName(p[..|p| - 1]) + [p[|p| - 1]]
  }

  lemma {:induction false} EntryNameAfterSlash(d: string, name: string)
    requires '/' !in name
    decreases |name|
    ensures EntryName(d + "/" + name) == name
  {
    var p := d + "/" + name;
    if name == [] {
      assert p[|p| - 1] == '/';
    } else {
      assert p[..|p| - 1] == d + "/" + name[..|name| - 1];
      EntryNameAfterSlash(d, name[..|name| - 1]);
      assert name == name[..|name| - 1] + [name[|name| - 1]];
    }
  }

  lemma ListedEntryName(disk: Disk, p: string)
    requires p in Listing(disk)
    ensures p == BackupDir + "/" + EntryName(p) || p == CreateDir + "/" + EntryName(p)
    ensures EndsWith(EntryName(p), ".json")
  {
    var d := if StartsWith(p, BackupDir + "/") then BackupDir else CreateDir;
    assert IsJsonEntry(p, d);
    var name := p[|d| + 1..];
    assert p == d + "/" + name by { assert p[..|d| + 1] == d + "/"; }
    EntryNameAfterSlash(d, name);
  }

  /** `completions_context_load()`: the entry name of each listed file, in listing order; a
      name in both directories is offered twice. */
  method ContextLoadCompletions(disk: Disk) returns (names: seq<string>)
    ensures exists paths :: StrictlySorted(paths) && (forall p :: p in paths <==> p in Listing(disk))
                            && |names| == |paths|
                            && forall k :: 0 <= k < |paths| ==> names[k] == EntryName(paths[k])
    ensures forall k :: 0 <= k < |names| ==> EndsWith(names[k], ".json") && '/' !in names[k]
  {
    var paths := ListContextFiles(disk);
    names := [];
    for k := 0 to |paths|
      invariant |names| == k
      invariant forall m :: 0 <= m < k ==> names[m] == EntryName(paths[m]) && EndsWith(names[m], ".json")
    {
      ListedNameIsJson(disk, paths[k]);
      names := names + [EntryName(paths[k])];
    }
    assert StrictlySorted(paths) && (forall p :: p in paths <==> p in Listing(disk));
  }

  lemma ListedNameIsJson(disk: Disk, p: string)
    requires p in Listing(disk)
    ensures EndsWith(EntryName(p), ".json")
  {
    ListedEntryName(disk, p);
  }
}
