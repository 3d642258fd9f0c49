/**
  Files that survive a crash. A crash is a fuse: the number of primitive file-system
  steps that still happen. Opening a file for writing empties it, each character
  written is a step of its own, and a rename is one step.
 */
module Disks {
  import opened Options
  import opened Texts

  datatype Disk = Disk(files: map<Text, Text>, fuse: nat)

  function WriteText(d: Disk, path: Text, text: Text): Disk {
    if d.fuse == 0 then d
    else if d.fuse <= |text| then Disk(d.files[path := text[..d.fuse - 1]], 0)
    else Disk(d.files[path := text], d.fuse - 1 - |text|)
  }

  function Rename(d: Disk, source: Text, target: Text): Disk {
    if d.fuse == 0 || source !in d.files then d
    else Disk((d.files - {source})[target := d.files[source]], d.fuse - 1)
  }

  const SUFFIX: Text := Ascii(".tmp")

  function Temporary(path: Text): (t: Text)
    ensures t != path
  {
    assert |path + SUFFIX| != |path|;
    path + SUFFIX
  }

  /** Refuses an existing file; otherwise writes it in place. */
  function WriteNew(d: Disk, path: Text, text: Text): Disk {
    if path in d.files then d else WriteText(d, path, text)
  }

  /** Writes beside the file, then renames over it. */
  function Replace(d: Disk, path: Text, text: Text): Disk {
    Rename(WriteText(d, Temporary(path), text), Temporary(path), path)
  }

  /** Wherever the crash falls, the path holds all of the old text or all of the new one. */
  lemma ReplaceAtomic(d: Disk, path: Text, text: Text)
    requires path in d.files
    ensures var r := Replace(d, path, text);
            && path in r.files
            && r.files[path] == (if d.fuse >= |text| + 2 then text else d.files[path])
            && (forall q :: q != path && q != path + Ascii(".tmp") ==>
                  (q in r.files <==> q in d.files) && (q in d.files ==> r.files[q] == d.files[q]))
  {
  }

  /** A new file is absent, or holds some beginning of the text. */
  lemma WriteNewTorn(d: Disk, path: Text, text: Text)
    requires path !in d.files
    ensures var r := WriteNew(d, path, text);
            && (path in r.files <==> d.fuse > 0)
            && (d.fuse > 0 ==> r.files[path] == text[..if d.fuse <= |text| then d.fuse - 1 else |text|])
            && (forall q :: q != path ==> (q in r.files <==> q in d.files) && (q in d.files ==> r.files[q] == d.files[q]))
  {
    if d.fuse > |text| {
      assert text[..|text|] == text;
    }
  }

  /** The disk as the process sees it: methods act on the files until the fuse is gone. */
  class FileSystem {
    var disk: Disk

    method Exists(path: Text) returns (found: bool)
      ensures found == (path in disk.files)
    {
      found := path in disk.files;
    }

    method ReadText(path: Text) returns (text: Option<Text>)
      ensures text == if path in disk.files then Some(disk.files[path]) else None
    {
      text := if path in disk.files then Some(disk.files[path]) else None;
    }

    method Write(path: Text, text: Text) returns (done: bool)
      modifies this
      ensures disk == WriteText(old(disk), path, text)
      ensures done == (old(disk).fuse > |text|)
    {
      done := disk.fuse > |text|;
      disk := WriteText(disk, path, text);
    }

    method Move(source: Text, target: Text) returns (done: bool)
      modifies this
      ensures disk == Rename(old(disk), source, target)
      ensures done == (old(disk).fuse > 0 && source in old(disk).files)
    {
      done := disk.fuse > 0 && source in disk.files;
      disk := Rename(disk, source, target);
    }

    /** _write_new of the journey. */
    method WriteNewFile(path: Text, text: Text) returns (done: bool)
      modifies this
      ensures disk == WriteNew(old(disk), path, text)
      ensures done == (path !in old(disk).files && old(disk).fuse > |text|)
    {
      var found := Exists(path);
      if found { return false; }
      done := Write(path, text);
    }

    /** _replace of the journey: write the neighbour, then rename it over the file. */
    method ReplaceFile(path: Text, text: Text) returns (done: bool)
      modifies this
      ensures disk == Replace(old(disk), path, text)
      ensures done == (old(disk).fuse >= |text| + 2)
    {
      var temporary := Temporary(path);
      done := Write(temporary, text);
      if done {
        done := Move(temporary, path);
      }
    }
  }
}
