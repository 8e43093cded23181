/**
 The state file and the steps that write it (nns/state.go:46-114): SaveState writes a temporary file
 beside it, then renames it into place. Any step may fail, and the process may die before or after it.
 */
module SaveFile {
  import opened Wrappers
  import State
  import Chips

  type Files = map<string, string>

  /** The two maps a command loads, edits and saves. */
  datatype Saved = Saved(proposals: State.Proposals, chips: Chips.Cache)

  /** What the text decodes to. A map the text leaves out, as encoding does with an empty chips map, is nil. */
  datatype Raw = Raw(proposals: Option<State.Proposals>, chips: Option<Chips.Cache>)

  const NOTHING := Saved(map[], map[])

  function OrEmpty<K, V>(m: Option<map<K, V>>): map<K, V> {
    match m case Some(x) => x case None => map[]
  }

  /** Nil maps are replaced by empty ones after decoding. */
  function Repaired(raw: Raw): Saved {
    Saved(OrEmpty(raw.proposals), OrEmpty(raw.chips))
  }

  datatype Codec = Codec(encode: Saved -> string, decode: string -> Option<Raw>)

  /** Decoding and repairing undoes encoding. */
  ghost predicate Faithful(codec: Codec) {
    forall s :: codec.decode(codec.encode(s)).Some? && Repaired(codec.decode(codec.encode(s)).value) == s
  }

  /** The state file is absent and nothing is recorded, or it is the whole encoding of s. */
  ghost predicate Holds(files: Files, path: string, codec: Codec, s: Saved) {
    if path in files then files[path] == codec.encode(s) else s == NOTHING
  }

  /** How one step ends: done, refused with an error, or the process dies around it. */
  datatype Step = Done | Fails | DiesBefore | DiesAfter

  predicate TookEffect(s: Step) {
    s == Done || s == DiesAfter
  }

  datatype SaveResult = Written | Failed | Died

  /** create, write, close and rename, and how many characters a broken write left behind. */
  datatype Fate = Fate(create: Step, write: Step, written: nat, close: Step, rename: Step)

  /** The rename happened: every step before it was done. */
  predicate Landed(f: Fate) {
    f.create == Done && f.write == Done && f.close == Done && TookEffect(f.rename)
  }

  const SMOOTH := Fate(Done, Done, 0, Done, Done)

  datatype LoadError = Unreadable | Undecodable

  /** The same file before and after, or the same absence. */
  ghost predicate Untouched(before: Files, after: Files, f: string) {
    (f in before <==> f in after) && (f in before ==> after[f] == before[f])
  }

  class FileSystem {
    var files: Files

    constructor (files: Files)
      ensures this.files == files
    {
      this.files := files;
    }

    /** os.CreateTemp: an empty file under a name no file had. */
    method CreateTemp(path: string) returns (tmp: string)
      modifies this
      ensures tmp != path && tmp !in old(files) && files == old(files)[tmp := ""]
    {
      ghost var _ := UnusedName(files.Keys + {path});
      tmp :| tmp != path && tmp !in files;
      files := files[tmp := ""];
    }

    /** Fills the temporary file; on an error it is closed and removed. */
    method WriteAndClose(tmp: string, data: string, fate: Fate) returns (r: SaveResult)
      requires tmp in files
      modifies this
      ensures r == Written <==> fate.write == Done && fate.close == Done
      ensures r == Written ==> files == old(files)[tmp := data]
      ensures r == Failed ==> files == old(files) - {tmp}
      ensures r == Died ==> tmp in files && files == old(files)[tmp := files[tmp]]
    {
      match fate.write {
        case Done => files := files[tmp := data];
        case Fails =>
          files := files[tmp := data[..if fate.written < |data| then fate.written else |data|]];
          files := files - {tmp};
          return Failed;
        case DiesBefore => return Died;
        case DiesAfter =>
          files := files[tmp := data[..if fate.written < |data| then fate.written else |data|]];
          return Died;
      }
      match fate.close {
        case Done => return Written;
        case Fails =>
          files := files - {tmp};
          return Failed;
        case DiesBefore => return Died;
        case DiesAfter => return Died;
      }
    }

    /**
     Whatever happens, the state file holds its old content or all of the new; other files are
     untouched; and unless the process died no temporary file is left.
     */
    method SaveState(path: string, s: Saved, codec: Codec, fate: Fate) returns (r: SaveResult)
      modifies this
      ensures Landed(fate) ==> path in files && files[path] == codec.encode(s)
      ensures !Landed(fate) ==> Untouched(old(files), files, path)
      ensures forall f :: f != path && f in old(files) ==> Untouched(old(files), files, f)
      ensures r != Died ==> files.Keys - {path} == old(files).Keys - {path}
      ensures r == Written ==> Landed(fate)
      ensures r == Failed ==> !Landed(fate)
    {
      var data := codec.encode(s);
      if fate.create == Fails {
        return Failed;
      }
      if fate.create == DiesBefore {
        return Died;
      }
      var tmp := CreateTemp(path);
      if fate.create == DiesAfter {
        return Died;
      }
      var w := WriteAndClose(tmp, data, fate);
      if w != Written {
        return w;
      }
      match fate.rename {
        case Fails =>
          files := files - {tmp};
          return Failed;
        case DiesBefore => return Died;
        case DiesAfter =>
          files := files[path := files[tmp]] - {tmp};
          return Died;
        case Done =>
          files := files[path := files[tmp]] - {tmp};
          return Written;
      }
    }

    /** A missing file is the empty state; unreadable is every other way reading it can fail. */
    method LoadState(path: string, codec: Codec, unreadable: bool) returns (r: Result<Saved, LoadError>)
      ensures unreadable ==> r == Err(Unreadable)
      ensures !unreadable && path !in files ==> r == Ok(NOTHING)
      ensures !unreadable && path in files ==>
        match codec.decode(files[path])
        case None => r == Err(Undecodable)
        case Some(raw) => r == Ok(Repaired(raw))
      ensures !unreadable && Faithful(codec) ==> forall s :: Holds(files, path, codec, s) ==> r == Ok(s)
    {
      if unreadable {
        return Err(Unreadable);
      }
      if path !in files {
        return Ok(NOTHING);
      }
      var raw := codec.decode(files[path]);
      if raw == None {
        return Err(Undecodable);
      }
      var proposals, chips := raw.value.proposals, raw.value.chips;
      if proposals == None {
        proposals := Some(map[]);
      }
      if chips == None {
        chips := Some(map[]);
      }
      return Ok(Saved(proposals.value, chips.value));
    }
  }

  /** A name longer than all of these is none of them. */
  lemma {:induction false} UnusedName(names: set<string>) returns (s: string)
    ensures forall n :: n in names ==> |n| < |s|
    ensures s !in names
    decreases names
  {
    if names == {} {
      s := "";
    } else {
      var n :| n in names;
      var t := UnusedName(names - {n});
      s := t + n + "x";
    }
  }

  /** One save under any fate, then a load: the old state or the new one, never a torn one. */
  method SaveThenLoad(fs: FileSystem, path: string, codec: Codec, fate: Fate, before: Saved, after: Saved)
    returns (seen: Result<Saved, LoadError>)
    requires Faithful(codec) && Holds(fs.files, path, codec, before)
    modifies fs
    ensures seen == Ok(if Landed(fate) then after else before)
    ensures Holds(fs.files, path, codec, if Landed(fate) then after else before)
  {
    var _ := fs.SaveState(path, after, codec, fate);
    assert Holds(fs.files, path, codec, if Landed(fate) then after else before);
    seen := fs.LoadState(path, codec, false);
  }
}
