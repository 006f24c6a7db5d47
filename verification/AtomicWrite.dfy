/**
 * Replacing a text file through a temporary one (app/core/paths.py).
 */
module AtomicWrite {
  import opened Prelude

  /** What a file operation does: succeed, fail in the way its retry loop waits out, or fail for good. */
  datatype Fault = Fine | Passing | Lasting

  const CREATE_ATTEMPTS: nat := 3
  const REPLACE_ATTEMPTS: nat := 12

  type Names = map<string, string>

  /** A directory; `past` holds every state it has been in, so a crash at any point leaves one of these. */
  class Directory {
    var files: Names
    var clock: nat
    ghost var past: seq<Names>
    const faults: nat -> Fault

    ghost predicate Valid()
      reads this
    {
      past != [] && past[|past| - 1] == files
    }

    constructor (files: Names, faults: nat -> Fault)
      ensures Valid() && this.files == files && past == [files]
    {
      this.files, clock, past, this.faults := files, 0, [files], faults;
    }

    method Attempt() returns (fault: Fault)
      modifies `clock
      ensures fault == faults(old(clock)) && clock == old(clock) + 1
    {
      fault := faults(clock);
      clock := clock + 1;
    }

    method Become(files: Names)
      requires Valid()
      modifies `files, `past
      ensures Valid() && this.files == files && past == old(past) + [files]
    {
      this.files, past := files, past + [files];
    }

    /** Of the next attempts the first that does not ask for another one is fine. */
    ghost predicate Succeeds(from: nat, attempts: nat) {
      exists k :: from <= k < from + attempts && faults(k).Fine? && forall j :: from <= j < k ==> faults(j).Passing?
    }

    /** `mkstemp`, up to three times; the name is new, and longer than the target's. */
    method CreateTemporary(target: string) returns (temporary: Option<string>)
      requires Valid()
      modifies `files, `past, `clock
      ensures Valid()
      ensures temporary.None? ==> files == old(files) && past == old(past)
      ensures temporary.Some? ==>
                && temporary.value != target && temporary.value !in old(files)
                && files == old(files)[temporary.value := ""] && past == old(past) + [files]
      ensures temporary.Some? <==> Succeeds(old(clock), 3)
    {
      temporary := None;
      var attempt, fault := 0, Fault.Passing;
      while attempt < CREATE_ATTEMPTS && fault.Passing?
        invariant forall k :: old(clock) <= k < clock - 1 ==> faults(k).Passing?
        invariant Valid() && files == old(files) && past == old(past)
        invariant attempt <= CREATE_ATTEMPTS && clock == old(clock) + attempt
        invariant fault == if attempt == 0 then Fault.Passing else faults(clock - 1)
        decreases CREATE_ATTEMPTS - attempt
      {
        fault := Attempt();
        attempt := attempt + 1;
      }
      if fault.Fine? {
        var name := FreshName(files.Keys + {target}, ".tmp");
        Become(files[name := ""]);
        temporary := Some(name);
      }
    }

    /** `os.replace`, up to twelve times. */
    method ReplaceWithRetry(temporary: string, name: string) returns (ok: bool)
      requires Valid() && temporary in files && temporary != name
      modifies `files, `past, `clock
      ensures Valid()
      ensures ok ==> files == old(files)[name := old(files)[temporary]] - {temporary} && past == old(past) + [files]
      ensures !ok ==> files == old(files) && past == old(past)
      ensures ok <==> Succeeds(old(clock), 12)
    {
      var attempt, fault := 0, Fault.Passing;
      while attempt < REPLACE_ATTEMPTS && fault.Passing?
        invariant forall k :: old(clock) <= k < clock - 1 ==> faults(k).Passing?
        invariant Valid() && files == old(files) && past == old(past)
        invariant attempt <= REPLACE_ATTEMPTS && clock == old(clock) + attempt
        invariant fault == if attempt == 0 then Fault.Passing else faults(clock - 1)
        decreases REPLACE_ATTEMPTS - attempt
      {
        fault := Attempt();
        attempt := attempt + 1;
      }
      ok := fault.Fine?;
      if ok {
        Become(files[name := files[temporary]] - {temporary});
      }
    }
  }

  /** The target holds its old or its complete new content, and every other file but the temporary one is as it was. */
  ghost predicate OldOrNew(was: Names, now: Names, name: string, content: string, temporary: Option<string>) {
    && (Lookup(now, name) == Lookup(was, name) || Lookup(now, name) == Some(content))
    && forall q :: q != name && Some(q) != temporary ==> Lookup(now, q) == Lookup(was, q)
  }

  /** All states since the first `n` are harmless to readers of the target. */
  ghost predicate Harmless(past: seq<Names>, n: nat, was: Names, name: string, content: string, temporary: string) {
    forall i :: n <= i < |past| ==> OldOrNew(was, past[i], name, content, Some(temporary))
  }

  /** Only the temporary file differs. */
  ghost predicate Aside(was: Names, now: Names, tmp: string) {
    tmp in now && now == was[tmp := now[tmp]]
  }

  /** Writing may stop anywhere in the content. */
  method Fill(dir: Directory, was: Names, tmp: string, content: string) returns (ok: bool)
    requires dir.Valid() && Aside(was, dir.files, tmp)
    modifies dir
    ensures dir.Valid() && old(dir.past) <= dir.past && Aside(was, dir.files, tmp)
    ensures forall i :: |old(dir.past)| <= i < |dir.past| ==> Aside(was, dir.past[i], tmp)
    ensures ok ==> dir.files[tmp] == content
    ensures ok <==> dir.faults(old(dir.clock)).Fine?
    ensures dir.clock == old(dir.clock) + 1
  {
    var written := dir.Attempt();
    var partial: string := *;
    dir.Become(was[tmp := partial]);
    ok := written.Fine?;
    if ok {
      dir.Become(was[tmp := content]);
    }
  }

  /** Fill the temporary file and move it over the target. */
  method FillAndReplace(dir: Directory, was: Names, tmp: string, name: string, content: string) returns (ok: bool)
    requires dir.Valid() && tmp !in was && tmp != name && Aside(was, dir.files, tmp)
    modifies dir
    ensures dir.Valid() && old(dir.past) <= dir.past
    ensures if ok then dir.files == was[name := content] else Aside(was, dir.files, tmp)
    ensures Harmless(dir.past, |old(dir.past)|, was, name, content, tmp)
    ensures ok <==> dir.faults(old(dir.clock)).Fine? && dir.Succeeds(old(dir.clock) + 1, 12)
  {
    ok := Fill(dir, was, tmp, content);
    if ok {
      ok := dir.ReplaceWithRetry(tmp, name);
      assert ok ==> dir.files == was[name := content];
    }
  }

  /** The temporary file is unlinked, unless that raises. */
  method Discard(dir: Directory, was: Names, tmp: string)
    requires dir.Valid() && tmp !in was && Aside(was, dir.files, tmp)
    modifies dir
    ensures dir.Valid() && old(dir.past) <= dir.past
    ensures forall i :: |old(dir.past)| <= i < |dir.past| ==> dir.past[i] == was
    ensures dir.clock == old(dir.clock) + 1
    ensures dir.files == if dir.faults(old(dir.clock)).Fine? then was else old(dir.files)
  {
    var unlinked := dir.Attempt();
    if unlinked.Fine? {
      dir.Become(dir.files - {tmp});
      assert dir.files == was;
    }
  }

  /**
   * `atomic_write_text`.  A normal return means the new content and nothing else; an exception means the old
   * files, but for a temporary file that could not be unlinked; and whatever happens, the directory was never
   * in a state where the target held a mixture.
   */
  method AtomicWriteText(dir: Directory, name: string, content: string) returns (ok: bool, ghost tmp: string)
    requires dir.Valid()
    modifies dir
    ensures dir.Valid() && old(dir.past) <= dir.past
    ensures ok ==> dir.files == old(dir.files)[name := content]
    ensures !ok ==> dir.files == old(dir.files)
                    || (Aside(old(dir.files), dir.files, tmp) && dir.clock > 0 && !dir.faults(dir.clock - 1).Fine?)
    ensures tmp !in old(dir.files) && tmp != name
    ensures Harmless(dir.past, |old(dir.past)|, old(dir.files), name, content, tmp)
    ensures (forall k :: dir.faults(k).Fine?) ==> ok
  {
    var was := dir.files;
    ghost var start := dir.clock;
    var created := dir.CreateTemporary(name);
    assert dir.faults(start).Fine? ==> dir.Succeeds(start, 3);
    if created.None? {
      tmp := FreshName(was.Keys + {name}, ".tmp");
      return false, tmp;
    }
    tmp := created.value;
    ghost var filling := dir.clock;
    ok := FillAndReplace(dir, was, created.value, name, content);
    assert dir.faults(filling + 1).Fine? ==> dir.Succeeds(filling + 1, 12);
    if !ok {
      Discard(dir, was, created.value);
    }
  }
}
