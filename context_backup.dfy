/** The `/context_backup` command (custom_aider/commands/context_backup_command.py): the file
    name it picks and the record it writes into the backup directory. The clock is two
    parameters (the stamp in the file name and the one in the record), and whether the
    write succeeds is a third. */
module ContextBackup {
  import opened Util
  import opened Host
  import opened ContextLoad

  const DefaultPrefix := "aider_context"

  /** `args.strip() if args else "aider_context"`. */
  function BackupPrefix(args: string): (r: string)
    ensures args == [] ==> r == DefaultPrefix
    ensures args != [] ==> r == Strip(args)
    ensures args != [] ==> IsStripped(r) && (r == [] <==> forall k :: 0 <= k < |args| ==> IsSpace(args[k]))
  {
    if args == [] then DefaultPrefix
    else
      StripEmptyIffBlank(args);
      Strip(args)
  }

  /** Arguments of spaces only give an empty prefix, not the default one. */
  lemma BlankArgsEmptyPrefix()
    ensures BackupPrefix(" ") == []
  {
    StripEmptyIffBlank(" ");
  }

  /** `f"{prefix}_{timestamp}.json"`. */
  function BackupFileName(prefix: string, stamp: string): (r: string)
    ensures StartsWith(r, prefix + "_") && EndsWith(r, ".json")
    ensures |r| == |prefix| + |stamp| + 6
    ensures r[|prefix| + 1..|r| - 5] == stamp
  {
    prefix + "_" + stamp + ".json"
  }

  /** The saved record: the four fields the loader requires, in the order written. */
  function BackupRecord(recordStamp: string, model: string, files: seq<string>, messages: seq<Json>): (r: Json)
    ensures r.JObject? && r.keys == RequiredFields
    ensures forall f :: f in r.fields <==> f in RequiredFields
    ensures r.fields["files"] == JList(seq(|files|, k requires 0 <= k < |files| => JString(files[k])))
    ensures r.fields["messages"] == JList(messages)
  {
    JObject(RequiredFields,
            map["timestamp" := JString(recordStamp), "model" := JString(model),
                "files" := JList(seq(|files|, k requires 0 <= k < |files| => JString(files[k]))),
                "messages" := JList(messages)])
  }

  datatype BackupResult = BackupResult(disk: Disk, path: string, saved: bool)

  /** `cmd_context_backup(args)`: the backup directory is created, then the record of the
      coder's model, chat files and done-then-current messages is written to the new file
      when the write succeeds. */
  function CmdContextBackup(coder: Coder, args: string, disk: Disk, fileStamp: string, recordStamp: string, writeOk: bool)
    : (r: BackupResult)
    reads coder
    ensures r.path == BackupDir + "/" + BackupFileName(BackupPrefix(args), fileStamp)
    ensures BackupDir in r.disk.dirs && r.disk.dirs == disk.dirs + {".extn_aider", ".extn_aider/temp", BackupDir}
    ensures r.saved == writeOk
    ensures r.saved ==> r.disk.files == disk.files[r.path := Parsed(BackupRecord(recordStamp, coder.modelName, coder.chatFiles,
                                                                                  coder.doneMessages + coder.curMessages))]
    ensures !r.saved ==> r.disk.files == disk.files
  {
    var dirs := disk.dirs + {".extn_aider", ".extn_aider/temp", BackupDir};
    var path := BackupDir + "/" + BackupFileName(BackupPrefix(args), fileStamp);
    if writeOk then
      var record := BackupRecord(recordStamp, coder.modelName, coder.chatFiles, coder.doneMessages + coder.curMessages);
      BackupResult(Disk(dirs, disk.files[path := Parsed(record)]), path, true)
    else
      BackupResult(Disk(dirs, disk.files), path, false)
  }

  /** A backup record passes the loader's check and gives back the files and the messages. */
  lemma {:induction false} RecordLoadsBack(recordStamp: string, model: string, files: seq<string>, messages: seq<Json>)
    ensures HasRequiredFields(BackupRecord(recordStamp, model, files, messages))
    ensures FileNames(BackupRecord(recordStamp, model, files, messages)) == Some(files)
    ensures MessageItems(BackupRecord(recordStamp, model, files, messages)) == Some(messages)
  {
    var r := BackupRecord(recordStamp, model, files, messages);
    forall f | f in RequiredFields ensures PyIn(f, r) == Some(true) {
      assert f in r.fields;
    }
    assert FileNames(r).Some?;
    var names := FileNames(r).value;
    assert |names| == |files|;
    assert forall k :: 0 <= k < |files| ==> names[k] == files[k] by {
      forall k | 0 <= k < |files| ensures names[k] == files[k] {
        assert Iterate(r.fields["files"]).value[k] == JString(files[k]);
      }
    }
    assert names == files;
  }

  /** A saved backup whose name holds no `/` is listed, is the file `/context_load` finds for
      that name, and loads back as the record written: its files and its messages. */
  lemma BackupRoundTrip(coder: Coder, args: string, disk: Disk, fileStamp: string, recordStamp: string)
    requires '/' !in BackupPrefix(args) && '/' !in fileStamp
    ensures var r := CmdContextBackup(coder, args, disk, fileStamp, recordStamp, true);
            var name := BackupFileName(BackupPrefix(args), fileStamp);
            && r.path in Listing(r.disk)
            && Locate(r.disk, name) == Some(r.path)
            && LoadContextFile(r.disk, r.path).Loaded?
            && FileNames(LoadContextFile(r.disk, r.path).data) == Some(coder.chatFiles)
            && MessageItems(LoadContextFile(r.disk, r.path).data) == Some(coder.doneMessages + coder.curMessages)
  {
    var r := CmdContextBackup(coder, args, disk, fileStamp, recordStamp, true);
    var prefix := BackupPrefix(args);
    var name := BackupFileName(prefix, fileStamp);
    assert '/' !in name by {
      assert name == prefix + "_" + fileStamp + ".json";
    }
    BackupListed(r.disk, name);
    RecordLoadsBack(recordStamp, coder.modelName, coder.chatFiles, coder.doneMessages + coder.curMessages);
  }

  /** A `.json` file without `/` in its name, written into the existing backup directory, is
      listed and is the file `/context_load` finds for that name. */
  lemma BackupListed(disk: Disk, name: string)
    requires '/' !in name && EndsWith(name, ".json")
    requires BackupDir in disk.dirs && BackupDir + "/" + name in disk.files
    ensures BackupDir + "/" + name in Listing(disk)
    ensures Locate(disk, name) == Some(BackupDir + "/" + name)
  {
    var path := BackupDir + "/" + name;
    assert path[..|BackupDir| + 1] == BackupDir + "/";
    assert path[|BackupDir| + 1..] == name;
    assert IsJsonEntry(path, BackupDir);
    assert path in DirEntries(disk, BackupDir);
  }
}
