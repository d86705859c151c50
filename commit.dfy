/** The commit record of Commit.java: a frozen snapshot of the tracked files,
    the parent links, and the mutable staging overlay of the working commit. */
module Commits {
  import opened Base

  /** The part of a commit record that never changes once the commit exists:
      what a later `getCommit` reads back from the commits folder. */
  datatype Snapshot = Snapshot(
    id: string,
    files: map<string, string>,
    prev: Option<string>,
    prev2: Option<string>,
    message: string)

  /** The pair (newFiles, staged) after `addFiles(name, content)`: nothing
      changes when `newFiles` already maps `name` to `content`; otherwise
      `name` is mapped to `content` in both maps. */
  function StageAdd(newFiles: map<string, string>, staged: map<string, string>,
                    name: string, content: string): (r: (map<string, string>, map<string, string>))
    ensures name in r.0 && r.0[name] == content
    ensures forall k | k != name :: Lookup(r.0, k) == Lookup(newFiles, k) && Lookup(r.1, k) == Lookup(staged, k)
    ensures Lookup(r.1, name) == Lookup(staged, name) || Lookup(r.1, name) == Some(content)
    ensures Lookup(newFiles, name) != Some(content) ==> Lookup(r.1, name) == Some(content)
    ensures Lookup(newFiles, name) == Some(content) ==> r == (newFiles, staged)
  {
    if name in newFiles && newFiles[name] == content then (newFiles, staged)
    else (newFiles[name := content], staged[name := content])
  }

  /** Staging the same content twice is the same as staging it once. */
  lemma StageAddIdempotent(newFiles: map<string, string>, staged: map<string, string>,
                           name: string, content: string)
    ensures var r := StageAdd(newFiles, staged, name, content);
            StageAdd(r.0, r.1, name, content) == r
  {
  }

  /** The snapshot the next commit should record: the committed files with
      every staged path put in and every path marked for removal taken out. */
  function Staging(files: map<string, string>, staged: map<string, string>,
                   removed: set<string>): (r: map<string, string>)
  {
    (files + staged) - removed
  }

  /** With nothing staged and nothing removed, the next commit records the
      committed files unchanged. */
  lemma StagingClean(files: map<string, string>)
    ensures Staging(files, map[], {}) == files
  {
    assert Staging(files, map[], {}).Keys == files.Keys;
  }

  /** Staging a path that is not marked for removal keeps the overlay equal
      to the snapshot `Staging` describes. */
  lemma StageAddKeepsStaging(files: map<string, string>, newFiles: map<string, string>,
                             staged: map<string, string>, removed: set<string>,
                             name: string, content: string)
    requires newFiles == Staging(files, staged, removed) && name !in removed
    ensures var r := StageAdd(newFiles, staged, name, content);
            r.0 == Staging(files, r.1, removed)
  {
    var r := StageAdd(newFiles, staged, name, content);
    assert r.0.Keys == Staging(files, r.1, removed).Keys;
  }

  /** Marking an unstaged path removed and dropping it from the overlay
      keeps the overlay equal to `Staging`. */
  lemma RemoveKeepsStaging(files: map<string, string>, newFiles: map<string, string>,
                           staged: map<string, string>, removed: set<string>, name: string)
    requires newFiles == Staging(files, staged, removed) && name !in staged
    ensures newFiles - {name} == Staging(files, staged, removed + {name})
  {
    assert (newFiles - {name}).Keys == Staging(files, staged, removed + {name}).Keys;
  }

  /** Unstaging a path that is not committed and dropping it from the
      overlay keeps the overlay equal to `Staging`; a committed, unremoved
      path instead stays in `Staging` while it leaves the overlay. */
  lemma UnstageStaging(files: map<string, string>, newFiles: map<string, string>,
                       staged: map<string, string>, removed: set<string>, name: string)
    requires newFiles == Staging(files, staged, removed)
    ensures name !in files ==> newFiles - {name} == Staging(files, staged - {name}, removed)
    ensures name in files && name !in removed ==> newFiles - {name} != Staging(files, staged - {name}, removed)
  {
    if name !in files {
      assert (newFiles - {name}).Keys == Staging(files, staged - {name}, removed).Keys;
    } else if name !in removed {
      assert name in Staging(files, staged - {name}, removed);
    }
  }

  /** `add` as seen by `Staging`: with `addFiles(File, name)` producing
      the overlay and staged map `newFiles'` and `staged'` and the removal
      mark cleared, a path not marked removed keeps the overlay equal to
      `Staging`; re-adding a removed, unstaged, committed path with new
      content breaks it. */
  lemma AddStaging(files: map<string, string>, newFiles: map<string, string>,
                   staged: map<string, string>, removed: set<string>, name: string, content: string,
                   newFiles': map<string, string>, staged': map<string, string>)
    requires Lookup(newFiles, name) == Some(content) ==> newFiles' == newFiles && staged' == staged
    requires Lookup(newFiles, name) != Some(content) ==>
               newFiles' == newFiles[name := content] &&
               staged' == (if name in removed then staged else staged[name := content])
    ensures newFiles == Staging(files, staged, removed) && name !in removed
            ==> newFiles' == Staging(files, staged', removed - {name})
    ensures newFiles == Staging(files, staged, removed) && name in removed && name !in staged
            && name in files && content != files[name]
            ==> newFiles' != Staging(files, staged', removed - {name})
  {
    if newFiles == Staging(files, staged, removed) {
      if name !in removed {
        StageAddKeepsStaging(files, newFiles, staged, removed, name, content);
        assert removed - {name} == removed;
      } else if name !in staged && name in files && content != files[name] {
        assert name !in newFiles;
        ReaddBreaksStaging(files, newFiles, staged, removed, name, content);
      }
    }
  }

  /** The two changes `rm` can make to (overlay, staged, removed), as seen
      by `Staging`: dropping an unstaged path, or unstaging a path the
      snapshot lacks, keeps the overlay equal to `Staging`; unstaging a
      committed path that is not marked removed breaks it. */
  lemma RmStaging(files: map<string, string>, newFiles: map<string, string>,
                  staged: map<string, string>, removed: set<string>, name: string,
                  newFiles': map<string, string>, staged': map<string, string>, removed': set<string>)
    requires || (name in staged && staged' == staged - {name} && newFiles' == newFiles - {name} && removed' == removed)
             || (name !in staged && removed' == removed + {name} && newFiles' == newFiles - {name} && staged' == staged)
    ensures newFiles == Staging(files, staged, removed) && (name !in staged || name !in files)
            ==> newFiles' == Staging(files, staged', removed')
    ensures name in staged && name in files && name !in removed' ==> newFiles' != Staging(files, staged', removed')
  {
    if newFiles == Staging(files, staged, removed) {
      if name !in staged {
        RemoveKeepsStaging(files, newFiles, staged, removed, name);
      } else if name !in files {
        UnstageStaging(files, newFiles, staged, removed, name);
      }
    }
    if name in staged && name in files && name !in removed' {
      assert name in Staging(files, staged', removed');
    }
  }

  /** Re-adding a removed, unstaged path with new content puts that content
      in the overlay without staging it, while `Staging` holds the committed
      content again. */
  lemma ReaddBreaksStaging(files: map<string, string>, newFiles: map<string, string>,
                           staged: map<string, string>, removed: set<string>,
                           name: string, content: string)
    requires name !in staged && name in files && content != files[name]
    ensures newFiles[name := content] != Staging(files, staged, removed - {name})
  {
    assert Staging(files, staged, removed - {name})[name] == files[name];
  }

  class Commit {
    /** The committed snapshot; only `InitFiles` assigns it. */
    var files: map<string, string>
    /** The working overlay that the next commit will freeze. */
    var newFiles: map<string, string>
    var commitId: string
    var logMessage: string
    var prev: Option<string>
    var prev2: Option<string>
    var staged: map<string, string>
    var untracked: map<string, string>
    /** A modified file maps to its new content, a deleted one to `None`. */
    var modified: map<string, Option<string>>
    /** Paths marked for removal; the source stores them with a null value. */
    var removed: set<string>

    /** A fresh record with empty bookkeeping maps and no parents. */
    constructor ()
      ensures staged == map[] && untracked == map[] && modified == map[] && removed == {}
      ensures prev == None && prev2 == None
      ensures files == map[] && newFiles == map[] && commitId == "" && logMessage == ""
    {
      files, newFiles := map[], map[];
      commitId, logMessage := "", "";
      prev, prev2 := None, None;
      staged, untracked, modified := map[], map[], map[];
      removed := {};
    }

    /** A record read back from the commits folder. */
    constructor Load(s: Snapshot)
      ensures Frozen() == s && newFiles == s.files
      ensures staged == map[] && untracked == map[] && modified == map[] && removed == {}
    {
      files, newFiles := s.files, s.files;
      commitId, logMessage := s.id, s.message;
      prev, prev2 := s.prev, s.prev2;
      staged, untracked, modified := map[], map[], map[];
      removed := {};
    }

    /** The overlay, which `commit` freezes, is the snapshot `Staging`
        describes. The commands `init`, `commit`, `checkout branch`, `reset`
        and `merge` leave a head where this holds, `add` and `rm` of an
        unstaged path keep it, and the cases where the code departs from it
        are stated on `Add`, `Rm` and `CheckoutFile` of the session. */
    ghost predicate StagingAgrees()
      reads this
    {
      newFiles == Staging(files, staged, removed)
    }

    /** The persisted, unchanging part of this record. */
    function Frozen(): Snapshot
      reads this
    {
      Snapshot(commitId, files, prev, prev2, logMessage)
    }

    method SetPrev(p: string)
      modifies this`prev
      ensures prev == Some(p)
    {
      prev := Some(p);
    }

    method SetPrev2(p: string)
      modifies this`prev2
      ensures prev2 == Some(p)
    {
      prev2 := Some(p);
    }

    method SetCommitId(id: string)
      modifies this`commitId
      ensures commitId == id
    {
      commitId := id;
    }

    method SetLogMessage(message: string)
      modifies this`logMessage
      ensures logMessage == message
    {
      logMessage := message;
    }

    /** A root commit starts from nothing; any other copies its parent's
        overlay. Either way the new overlay equals the snapshot. */
    method InitFiles(prevFiles: map<string, string>)
      modifies this`files, this`newFiles
      ensures files == (if prev.None? then map[] else prevFiles)
      ensures newFiles == files
    {
      if prev.None? {
        files := map[];
      } else {
        files := prevFiles;
      }
      newFiles := files;
    }

    /** Drops every pending change: the overlay is the snapshot again and
        the four bookkeeping maps are empty. */
    method ClearSetUps()
      modifies this`newFiles, this`staged, this`modified, this`removed, this`untracked
      ensures newFiles == files
      ensures staged == map[] && modified == map[] && removed == {} && untracked == map[]
      ensures StagingAgrees()
    {
      StagingClean(files);
      newFiles := files;
      staged := map[];
      modified := map[];
      removed := {};
      untracked := map[];
    }

    /** `addFiles(File, String)`: stages the working copy `content` of
        `name`, except that a path marked for removal is put back into the
        overlay without being staged. */
    method AddWorkingFile(name: string, content: string)
      modifies this`newFiles, this`staged
      ensures Lookup(old(newFiles), name) == Some(content) ==>
                newFiles == old(newFiles) && staged == old(staged)
      ensures Lookup(old(newFiles), name) != Some(content) ==>
                newFiles == old(newFiles)[name := content] &&
                staged == (if name in removed then old(staged) else old(staged)[name := content])
    {
      if name in newFiles && newFiles[name] == content {
        return;
      }
      newFiles := newFiles[name := content];
      if name !in removed {
        staged := staged[name := content];
      }
    }

    /** `addFiles(String, String)`: stages `content` under `name`. */
    method AddFiles(name: string, content: string)
      modifies this`newFiles, this`staged
      ensures (newFiles, staged) == StageAdd(old(newFiles), old(staged), name, content)
    {
      if name in newFiles && newFiles[name] == content {
        return;
      }
      newFiles := newFiles[name := content];
      staged := staged[name := content];
    }

    /** Forgets `name` in both the staged map and the overlay. */
    method RemoveStaged(name: string)
      modifies this`staged, this`newFiles
      ensures staged == old(staged) - {name}
      ensures newFiles == old(newFiles) - {name}
    {
      staged := staged - {name};
      newFiles := newFiles - {name};
    }

    method AddRemoved(name: string)
      modifies this`removed
      ensures removed == old(removed) + {name}
    {
      removed := removed + {name};
    }

    method RemoveRemoved(name: string)
      modifies this`removed
      ensures removed == old(removed) - {name}
    {
      removed := removed - {name};
    }

    method RemoveModified(name: string)
      modifies this`modified
      ensures modified == old(modified) - {name}
    {
      modified := modified - {name};
    }

    /** `addUntracked(File)`: records the working copy `content` of `name`. */
    method AddUntracked(name: string, content: string)
      modifies this`untracked
      ensures untracked == old(untracked)[name := content]
    {
      untracked := untracked[name := content];
    }

    /** Both `addModified` overloads: `Some(content)` for a changed working
        file, `None` for a deleted one. */
    method AddModified(name: string, content: Option<string>)
      modifies this`modified
      ensures modified == old(modified)[name := content]
    {
      modified := modified[name := content];
    }

    method RemoveUntracked(name: string)
      modifies this`untracked
      ensures untracked == old(untracked) - {name}
    {
      untracked := untracked - {name};
    }
  }
}
