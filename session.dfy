/** The commands of Main.java acting on the process-wide state: the head
    commit, the branch table, the current branch, the commits folder and the
    working directory. A failing command changes nothing, because
    `handleError` exits before the state is saved. */
module Gitlet {
  import opened Base
  import opened Commits
  import opened History
  import opened MergeRules

  /** The ways a command fails; each comment gives the line `handleError`
      prints and where. */
  datatype Error =
    | FileDoesNotExist     // "File does not exist." (Main.java:181)
    | MissingMessage       // "Please enter a commit message." (Main.java:192)
    | NoChanges            // "No changes added to the commit." (Main.java:196)
    | NothingToRemove      // "No reason to remove the file." (Main.java:228)
    | FileNotInCommit      // "File does not exist in that commit" (Main.java:325)
    | NoSuchCommit         // "No commit with that id exists." (Main.java:343)
    | AlreadyOnBranch      // "No need to checkout the current branch." (Main.java:347)
    | NoSuchBranch         // "No such branch exists." (Main.java:367)
    | UntrackedInTheWay    // "There is an untracked file in the way; delete it, or add and commit it first." (Main.java:354)
    | BranchExists         // "A branch with that name already exists." (Main.java:396)
    | RemoveCurrentBranch  // "Cannot remove the current branch" (Main.java:406)
    | UnknownBranch        // "A branch with that name does not exist." (Main.java:411)
    | UncommittedChanges   // "You have uncommitted changes." (Main.java:499)
    | SelfMerge            // "Cannot merge a branch with itself." (Main.java:496)
    | AncestorMerge        // "Given branch is an ancestor of the current branch." (Main.java:455)
    | UnreadableCommit     // no line: `getCommit("")` opens the commits folder itself and throws (Main.java:659-662)

  datatype Status = Ok | Fail(error: Error)

  /** `part` occurs in `s` starting at offset `i`. */
  predicate OccursAt(s: string, part: string, i: nat) {
    i + |part| <= |s| && s[i..i + |part|] == part
  }

  lemma OccursShift(s: string, part: string, i: nat)
    requires |s| > 0
    ensures OccursAt(s, part, i + 1) == OccursAt(s[1..], part, i)
  {
    if i + 1 + |part| <= |s| {
      assert s[1..][i..i + |part|] == s[i + 1..i + 1 + |part|];
    }
  }

  /** `String.contains`: `part` occurs somewhere in `s`. */
  function Contains(s: string, part: string): (b: bool)
    ensures b <==> exists i: nat :: OccursAt(s, part, i)
    decreases |s|
  {
    if |part| > |s| then false
    else if s[..|part|] == part then
      assert OccursAt(s, part, 0);
      true
    else
      var r := Contains(s[1..], part);
      assert r <==> exists i: nat :: OccursAt(s, part, i) by {
        if r {
          var i: nat :| OccursAt(s[1..], part, i);
          OccursShift(s, part, i);
        }
        if exists i: nat :: OccursAt(s, part, i) {
          var i: nat :| OccursAt(s, part, i);
          assert i != 0;
          OccursShift(s, part, i - 1);
        }
      }
      r
  }

  /** The new record built by `commit` and `mergeCommit`: a child of
      `parent` (and of `second`, for a merge) whose snapshot is `files`. */
  method ChildCommit(parent: string, second: Option<string>, files: map<string, string>,
                     message: string, id: string) returns (c: Commit)
    ensures fresh(c)
    ensures c.Frozen() == Snapshot(id, files, Some(parent), second, message)
    ensures c.newFiles == files
    ensures c.staged == map[] && c.removed == {} && c.untracked == map[] && c.modified == map[]
    ensures c.StagingAgrees()
  {
    StagingClean(files);
    c := new Commit();
    c.SetPrev(parent);
    if second.Some? {
      c.SetPrev2(second.value);
    }
    c.InitFiles(files);
    c.SetLogMessage(message);
    c.SetCommitId(id);
  }

  /** The record `init` builds: no parents, no files, "initial commit". */
  method RootCommit(rootId: string) returns (c: Commit)
    ensures fresh(c)
    ensures c.Frozen() == Snapshot(rootId, map[], None, None, "initial commit")
    ensures c.newFiles == map[]
    ensures c.staged == map[] && c.removed == {} && c.untracked == map[] && c.modified == map[]
    ensures c.StagingAgrees()
  {
    StagingClean(map[]);
    c := new Commit();
    c.SetCommitId(rootId);
    c.InitFiles(map[]);
    c.SetLogMessage("initial commit");
  }

  class Session {
    /** `headNode`: the working commit. */
    var head: Commit
    var branches: map<string, string>
    /** `branchUpdate`: the current branch. */
    var current: string
    /** The commits folder. */
    var store: Store
    /** The working directory: file name to content. */
    var cwd: map<string, string>
    ghost var rank: map<string, nat>
    ghost var root: string

    /** The state every command starts from and leaves behind: the commit
        graph ends at one root, the head is stored as it is, the current
        branch names the head, and every branch names a stored commit. */
    ghost predicate Valid()
      reads this, head
    {
      && Graph(store, rank, root)
      && head.commitId in store && store[head.commitId] == head.Frozen()
      && current in branches && branches[current] == head.commitId
      && forall b | b in branches :: branches[b] in store
    }

    /** `getCommit`: the stored record, or `None` for a null or unknown id. */
    function GetCommit(id: Option<string>): (c: Option<Snapshot>)
      reads this
      ensures c.None? <==> id.None? || id.value !in store
      ensures c.Some? ==> c.value == store[id.value]
    {
      if id.Some? && id.value in store then Some(store[id.value]) else None
    }

    /** `init`: one root commit with no files, on branch "master". `rootId`
        stands for the digest of the new commit. */
    constructor Init(rootId: string, workingDir: map<string, string>)
      ensures Valid()
      ensures head.commitId == rootId && head.prev == None && head.prev2 == None
      ensures head.files == map[] && head.newFiles == map[] && head.logMessage == "initial commit"
      ensures head.staged == map[] && head.removed == {} && head.untracked == map[] && head.modified == map[]
      ensures branches == map["master" := rootId] && current == "master"
      ensures store == map[rootId := head.Frozen()] && cwd == workingDir
      ensures head.StagingAgrees()
    {
      var c := RootCommit(rootId);
      GraphInit(c.Frozen());
      head := c;
      branches := map["master" := rootId];
      current := "master";
      store := map[rootId := c.Frozen()];
      cwd := workingDir;
      rank := map[rootId := 0];
      root := rootId;
    }

    /** `writeActualFile`. */
    method WriteActualFile(name: string, content: string)
      modifies this`cwd
      ensures cwd == old(cwd)[name := content]
    {
      cwd := cwd[name := content];
    }

    /** `updateUntracked`, run before every command: each working file the
        overlay lacks is recorded as untracked with its content and is no
        longer listed as modified. */
    method UpdateUntracked()
      modifies head`untracked, head`modified
      ensures forall f :: Lookup(head.untracked, f)
                          == if f in cwd && f !in head.newFiles then Some(cwd[f]) else old(Lookup(head.untracked, f))
      ensures forall f :: Lookup(head.modified, f)
                          == if f in cwd && f !in head.newFiles then None else old(Lookup(head.modified, f))
    {
      ghost var u0, m0 := head.untracked, head.modified;
      var listing := cwd.Keys;
      while listing != {}
        invariant listing <= cwd.Keys
        invariant forall f :: Lookup(head.untracked, f)
                              == if f in cwd && f !in head.newFiles && f !in listing then Some(cwd[f]) else Lookup(u0, f)
        invariant forall f :: Lookup(head.modified, f)
                              == if f in cwd && f !in head.newFiles && f !in listing then None else Lookup(m0, f)
        decreases listing
      {
        var f :| f in listing;
        ghost var ua, ma := head.untracked, head.modified;
        if f !in head.newFiles {
          head.AddUntracked(f, cwd[f]);
          if f in head.modified {
            head.RemoveModified(f);
          }
        }
        UntrackedStep(cwd, head.newFiles, listing, f, u0, m0, ua, ma, head.untracked, head.modified);
        listing := listing - {f};
      }
    }

    /** `updateModified`, run before every command: each overlay path whose
        working file differs is recorded with the new content, and each
        whose working file is gone is recorded with `None`. */
    method UpdateModified()
      modifies head`modified
      ensures forall f :: Lookup(head.modified, f)
                          == if f in head.newFiles && Lookup(cwd, f) != Some(head.newFiles[f]) then Some(Lookup(cwd, f))
                             else old(Lookup(head.modified, f))
    {
      ghost var m0 := head.modified;
      var tracked := head.newFiles.Keys;
      while tracked != {}
        invariant tracked <= head.newFiles.Keys
        invariant forall f :: Lookup(head.modified, f)
                              == if f in head.newFiles && f !in tracked && Lookup(cwd, f) != Some(head.newFiles[f])
                                 then Some(Lookup(cwd, f))
                                 else Lookup(m0, f)
        decreases tracked
      {
        var f :| f in tracked;
        if f in cwd {
          if cwd[f] != head.newFiles[f] {
            head.AddModified(f, Some(cwd[f]));
          }
        } else {
          head.AddModified(f, None);
        }
        tracked := tracked - {f};
      }
    }

    /** `add`: stage the working copy of `name`; it is no longer untracked,
        modified or marked for removal. */
    method Add(name: string) returns (status: Status)
      requires Valid()
      modifies head`newFiles, head`staged, head`untracked, head`modified, head`removed
      ensures Valid()
      ensures status == if name in cwd then Ok else Fail(FileDoesNotExist)
      ensures status.Fail? ==> unchanged(head)
      ensures status.Ok? ==>
                var content := cwd[name];
                && head.Frozen() == old(head.Frozen())
                && (Lookup(old(head.newFiles), name) == Some(content) ==>
                      head.newFiles == old(head.newFiles) && head.staged == old(head.staged))
                && (Lookup(old(head.newFiles), name) != Some(content) ==>
                      && head.newFiles == old(head.newFiles)[name := content]
                      && head.staged == if name in old(head.removed) then old(head.staged)
                                        else old(head.staged)[name := content])
                && head.untracked == old(head.untracked) - {name}
                && head.modified == old(head.modified) - {name}
                && head.removed == old(head.removed) - {name}
      ensures status.Ok? && old(head.StagingAgrees()) && name !in old(head.removed) ==> head.StagingAgrees()
      ensures status.Ok? && old(head.StagingAgrees()) && name in old(head.removed) && name !in old(head.staged)
              && name in head.files && cwd[name] != head.files[name]
              ==> !head.StagingAgrees()
    {
      if name in cwd {
        ghost var nf, st, rm := head.newFiles, head.staged, head.removed;
        head.AddWorkingFile(name, cwd[name]);
        head.RemoveUntracked(name);
        head.RemoveModified(name);
        head.RemoveRemoved(name);
        AddStaging(head.files, nf, st, rm, name, cwd[name], head.newFiles, head.staged);
        status := Ok;
      } else {
        status := Fail(FileDoesNotExist);
      }
    }

    /** The end of `commit` and of `mergeCommit`: a new commit whose parent is
        the head and whose snapshot is the head's overlay becomes the head,
        and the current branch moves to it. The old head is written to the
        commits folder; the new one is written when the command ends. */
    method AdvanceHead(second: Option<string>, message: string, newId: string)
      requires Valid() && newId !in store
      requires second.Some? ==> second.value in store
      modifies this`head, this`branches, this`store, this`rank
      ensures Valid()
      ensures fresh(head)
      ensures head.commitId == newId && head.prev == Some(old(head.commitId)) && head.prev2 == second
      ensures head.files == old(head.newFiles) && head.newFiles == head.files && head.logMessage == message
      ensures head.staged == map[] && head.removed == {} && head.untracked == map[] && head.modified == map[]
      ensures branches == old(branches)[current := newId]
      ensures store == old(store)[newId := head.Frozen()]
      ensures LogChain(store, rank, newId) == [newId] + old(LogChain(store, rank, head.commitId))
      ensures head.StagingAgrees()
    {
      var c := ChildCommit(head.commitId, second, head.newFiles, message, newId);
      var snap := c.Frozen();
      ghost var r := CommitStep(store, rank, root, branches, branches[current := newId], current, snap);
      rank := rank[newId := r];
      head := c;
      branches := branches[current := newId];
      store := store[newId := snap];
      assert head.Frozen() == snap;
    }

    /** `commit`: needs a non-empty message and something staged or marked
        for removal. `message` is `None` when no message was given;
        `newId` stands for the digest of the new commit. */
    method MakeCommit(message: Option<string>, newId: string) returns (status: Status)
      requires Valid() && newId !in store
      modifies this`head, this`branches, this`store, this`rank
      ensures Valid()
      ensures status == if message.None? || message.value == "" then Fail(MissingMessage)
                        else if old(head.staged) == map[] && old(head.removed) == {} then Fail(NoChanges)
                        else Ok
      ensures status.Fail? ==> head == old(head) && branches == old(branches) && store == old(store)
      ensures status.Ok? ==>
                && fresh(head)
                && head.commitId == newId && head.prev == Some(old(head.commitId)) && head.prev2 == None
                && head.files == old(head.newFiles) && head.newFiles == head.files
                && head.logMessage == message.value
                && head.staged == map[] && head.removed == {} && head.untracked == map[] && head.modified == map[]
                && branches == old(branches)[current := newId]
                && store == old(store)[newId := head.Frozen()]
                && LogChain(store, rank, newId) == [newId] + old(LogChain(store, rank, head.commitId))
      ensures status.Ok? && old(head.StagingAgrees()) ==>
                head.files == Staging(old(head.files), old(head.staged), old(head.removed))
      ensures status.Ok? ==> head.StagingAgrees()
    {
      if message.None? || message.value == "" {
        return Fail(MissingMessage);
      }
      if head.staged == map[] && head.removed == {} {
        return Fail(NoChanges);
      }
      AdvanceHead(None, message.value, newId);
      status := Ok;
    }

    /** `rm`: a staged path is unstaged and leaves the overlay without being
        marked removed; a tracked path is marked removed, leaves the overlay
        and its working file is deleted; any other path is an error. */
    method Rm(name: string) returns (status: Status)
      requires Valid()
      modifies head`newFiles, head`staged, head`modified, head`removed, this`cwd
      ensures Valid()
      ensures status == if name in old(head.staged) || name in old(head.newFiles) then Ok else Fail(NothingToRemove)
      ensures status.Fail? ==> unchanged(head) && cwd == old(cwd)
      ensures head.Frozen() == old(head.Frozen()) && head.untracked == old(head.untracked)
      ensures name in old(head.staged) ==>
                && head.staged == old(head.staged) - {name}
                && head.newFiles == old(head.newFiles) - {name}
                && head.removed == old(head.removed) && head.modified == old(head.modified)
                && cwd == old(cwd)
      ensures name !in old(head.staged) && name in old(head.newFiles) ==>
                && head.removed == old(head.removed) + {name}
                && head.newFiles == old(head.newFiles) - {name}
                && head.staged == old(head.staged)
                && head.modified == old(head.modified) - {name}
                && cwd == old(cwd) - {name}
      ensures status.Ok? && old(head.StagingAgrees()) && (name !in old(head.staged) || name !in head.files)
              ==> head.StagingAgrees()
      ensures status.Ok? && name in old(head.staged) && name in head.files && name !in head.removed
              ==> !head.StagingAgrees()
    {
      ghost var nf, st, rm := head.newFiles, head.staged, head.removed;
      if name in head.staged {
        head.RemoveStaged(name);
        status := Ok;
      } else if name in head.newFiles {
        head.AddRemoved(name);
        head.RemoveStaged(name);
        head.RemoveModified(name);
        cwd := cwd - {name};
        status := Ok;
      } else {
        status := Fail(NothingToRemove);
        return;
      }
      RmStaging(head.files, nf, st, rm, name, head.newFiles, head.staged, head.removed);
    }

    /** `log`: the ids from the head back to the root along first parents. */
    method Log() returns (ids: seq<string>)
      requires Valid()
      ensures ids == LogChain(store, rank, head.commitId)
    {
      ghost var chain := LogChain(store, rank, head.commitId);
      ids := [];
      var temp: Option<Snapshot> := Some(head.Frozen());
      while temp.Some?
        invariant |ids| <= |chain| && ids == chain[..|ids|]
        invariant temp.Some? <==> |ids| < |chain|
        invariant temp.Some? ==> temp.value == store[chain[|ids|]]
        decreases |chain| - |ids|
      {
        var c := temp.value;
        assert Linked(store, rank, chain[|ids|]);
        ids := ids + [c.id];
        temp := GetCommit(c.prev);
      }
    }

    /** `checkout -- name`: restore the head's committed copy of `name` into
        the overlay and the working directory. */
    method CheckoutFile(name: string) returns (status: Status)
      requires Valid()
      modifies head`newFiles, this`cwd
      ensures Valid()
      ensures status == if name in head.files then Ok else Fail(FileNotInCommit)
      ensures status.Ok? ==> head.newFiles == old(head.newFiles)[name := head.files[name]]
                             && cwd == old(cwd)[name := head.files[name]]
      ensures status.Fail? ==> head.newFiles == old(head.newFiles) && cwd == old(cwd)
      ensures status.Ok? && old(head.StagingAgrees()) && name !in head.staged && name !in head.removed
              ==> head.StagingAgrees()
      ensures status.Ok? && name in head.staged && name !in head.removed && head.staged[name] != head.files[name]
              ==> !head.StagingAgrees()
    {
      if name in head.files {
        head.newFiles := head.newFiles[name := head.files[name]];
        WriteActualFile(name, head.newFiles[name]);
        status := Ok;
      } else {
        status := Fail(FileNotInCommit);
      }
    }

    /** `checkout id -- name`: as above, from the commit `id` names. An exact
        id wins; otherwise some stored id containing `id` is used, whichever
        the directory listing yields first, reported in `resolved`. */
    method CheckoutFileFrom(id: string, name: string) returns (status: Status, resolved: Option<string>)
      requires Valid()
      modifies head`newFiles, this`cwd
      ensures Valid()
      ensures id == "" ==> resolved.None?
      ensures id != "" && id in store ==> resolved == Some(id)
      ensures id != "" && id !in store ==> (resolved.Some? <==> exists k | k in store :: Contains(k, id))
      ensures resolved.Some? ==> resolved.value in store && Contains(resolved.value, id)
      ensures status == if id == "" then Fail(UnreadableCommit)
                        else if resolved.None? then Fail(NoSuchCommit)
                        else if name in store[resolved.value].files then Ok
                        else Fail(FileNotInCommit)
      ensures status.Ok? ==>
                var content := store[resolved.value].files[name];
                head.newFiles == old(head.newFiles)[name := content] && cwd == old(cwd)[name := content]
      ensures status.Fail? ==> head.newFiles == old(head.newFiles) && cwd == old(cwd)
      ensures status.Ok? && old(head.StagingAgrees()) && name !in head.staged && name !in head.removed ==>
                (head.StagingAgrees() <==> Lookup(head.files, name) == Some(store[resolved.value].files[name]))
    {
      if id == "" {
        return Fail(UnreadableCommit), None;
      }
      if id in store {
        resolved := Some(id);
        assert OccursAt(id, id, 0);
      } else if exists k | k in store :: Contains(k, id) {
        var k :| k in store && Contains(k, id);
        resolved := Some(k);
      } else {
        resolved := None;
      }
      if resolved.None? {
        return Fail(NoSuchCommit), resolved;
      }
      var c := store[resolved.value];
      if name in c.files {
        head.newFiles := head.newFiles[name := c.files[name]];
        WriteActualFile(name, head.newFiles[name]);
        status := Ok;
      } else {
        status := Fail(FileNotInCommit);
      }
    }

    /** The untracked check of `checkout` and `reset`: whether some untracked
        path is a file of the target snapshot. */
    method BlockedByUntracked(files: map<string, string>) returns (blocked: bool)
      ensures blocked <==> exists f | f in head.untracked :: f in files
    {
      blocked := false;
      var pending := head.untracked.Keys;
      while pending != {}
        invariant pending <= head.untracked.Keys
        invariant blocked <==> exists f | f in head.untracked && f !in pending :: f in files
        decreases pending
      {
        var f :| f in pending;
        if f in files {
          blocked := true;
        }
        pending := pending - {f};
      }
    }

    /** `deleteFiles`: delete every working file the head's snapshot lacks. */
    method DeleteFiles()
      modifies this`cwd
      ensures forall f :: Lookup(cwd, f) == if f in head.files then Lookup(old(cwd), f) else None
    {
      var listing := cwd.Keys;
      while listing != {}
        invariant listing <= old(cwd).Keys
        invariant forall f :: Lookup(cwd, f) == if f in listing || f in head.files then Lookup(old(cwd), f) else None
        decreases listing
      {
        var f :| f in listing;
        if f !in head.files {
          cwd := cwd - {f};
        }
        listing := listing - {f};
      }
    }

    /** The materialisation shared by `checkout branch` and `reset`: write
        every file of the head's snapshot, then delete the rest. */
    method Materialize()
      modifies this`cwd
      ensures cwd == head.files
    {
      var pending := head.files.Keys;
      while pending != {}
        invariant pending <= head.files.Keys
        invariant forall f :: Lookup(cwd, f) == if f in head.files && f !in pending then Lookup(head.files, f)
                                                else Lookup(old(cwd), f)
        decreases pending
      {
        var f :| f in pending;
        WriteActualFile(f, head.files[f]);
        pending := pending - {f};
      }
      DeleteFiles();
      LookupExt(cwd, head.files);
    }

    /** `checkout branch`: refused for the current branch (tested first), an
        unknown branch, or an untracked file the target would overwrite;
        otherwise the branch's commit becomes the head with a clean overlay
        and the working directory becomes its snapshot. */
    method CheckoutBranch(name: string) returns (status: Status)
      requires Valid()
      modifies this`head, this`current, this`cwd
      ensures Valid()
      ensures status == if name == old(current) then Fail(AlreadyOnBranch)
                        else if name !in branches then Fail(NoSuchBranch)
                        else if exists f | f in old(head.untracked) :: f in store[branches[name]].files
                        then Fail(UntrackedInTheWay)
                        else Ok
      ensures status.Fail? ==> head == old(head) && current == old(current) && cwd == old(cwd)
      ensures status.Ok? ==>
                && fresh(head) && head.Frozen() == store[branches[name]]
                && head.newFiles == head.files
                && head.staged == map[] && head.removed == {} && head.untracked == map[] && head.modified == map[]
                && cwd == head.files && current == name
      ensures status.Ok? ==> head.StagingAgrees()
    {
      if name == current {
        return Fail(AlreadyOnBranch);
      }
      if name !in branches {
        return Fail(NoSuchBranch);
      }
      var c := store[branches[name]];
      assert Linked(store, rank, branches[name]);
      var blocked := BlockedByUntracked(c.files);
      if blocked {
        return Fail(UntrackedInTheWay);
      }
      head := new Commit.Load(c);
      Materialize();
      head.ClearSetUps();
      current := name;
      status := Ok;
    }

    /** `branch`: a new branch naming the head, unless the name is taken. */
    method Branch(name: string) returns (status: Status)
      requires Valid()
      modifies this`branches
      ensures Valid()
      ensures status == if name in old(branches) then Fail(BranchExists) else Ok
      ensures branches == if status.Ok? then old(branches)[name := head.commitId] else old(branches)
    {
      if name in branches {
        return Fail(BranchExists);
      }
      branches := branches[name := head.commitId];
      status := Ok;
    }

    /** `rm-branch`: drops one branch name; the commits stay. */
    method RmBranch(name: string) returns (status: Status)
      requires Valid()
      modifies this`branches
      ensures Valid()
      ensures status == if name !in old(branches) then Fail(UnknownBranch)
                        else if name == current then Fail(RemoveCurrentBranch)
                        else Ok
      ensures branches == if status.Ok? then old(branches) - {name} else old(branches)
    {
      if name in branches {
        if current == name {
          status := Fail(RemoveCurrentBranch);
        } else {
          branches := branches - {name};
          status := Ok;
        }
      } else {
        status := Fail(UnknownBranch);
      }
    }

    /** `reset`: like `checkout branch` for the commit with exactly the id
        `id`, except that the current branch stays and is moved to it. */
    method Reset(id: string) returns (status: Status)
      requires Valid()
      modifies this`head, this`branches, this`cwd
      ensures Valid()
      ensures status == if id == "" then Fail(UnreadableCommit)
                        else if id !in store then Fail(NoSuchCommit)
                        else if exists f | f in old(head.untracked) :: f in store[id].files
                        then Fail(UntrackedInTheWay)
                        else Ok
      ensures status.Fail? ==> head == old(head) && branches == old(branches) && cwd == old(cwd)
      ensures status.Ok? ==>
                && fresh(head) && head.Frozen() == store[id]
                && head.newFiles == head.files
                && head.staged == map[] && head.removed == {} && head.untracked == map[] && head.modified == map[]
                && cwd == head.files
                && branches == old(branches)[current := id]
      ensures status.Ok? ==> head.StagingAgrees()
    {
      if id == "" {
        return Fail(UnreadableCommit);
      }
      var c := GetCommit(Some(id));
      if c.None? {
        return Fail(NoSuchCommit);
      }
      var blocked := BlockedByUntracked(c.value.files);
      if blocked {
        return Fail(UntrackedInTheWay);
      }
      assert Linked(store, rank, id);
      head := new Commit.Load(c.value);
      Materialize();
      head.ClearSetUps();
      branches := branches[current := id];
      status := Ok;
    }

    /** The first walk of `getSplitPoint`: the ids from the head towards the
        root, preferring second parents. */
    method HeadHistory() returns (history: seq<string>)
      requires Valid()
      ensures history == Ancestors(store, rank, head.commitId)
    {
      ghost var hs := Ancestors(store, rank, head.commitId);
      history := [];
      var temp: Option<Snapshot> := Some(head.Frozen());
      while temp.Some?
        invariant |history| <= |hs| && history == hs[..|history|]
        invariant temp.Some? <==> |history| < |hs|
        invariant temp.Some? ==> temp.value == store[hs[|history|]]
        decreases |hs| - |history|
      {
        var c := temp.value;
        assert Linked(store, rank, hs[|history|]);
        history := history + [c.id];
        if c.prev2.Some? {
          temp := GetCommit(c.prev2);
        } else {
          temp := GetCommit(c.prev);
        }
      }
    }

    /** `getSplitPoint`: record the head's walk, then walk from the other
        tip until a recorded id turns up. The second walk needs no null
        check: both walks end at the root. */
    method GetSplitPoint(branch: string) returns (sp: string)
      requires Valid() && branch in branches
      ensures sp == SplitPoint(store, rank, root, head.commitId, branches[branch])
    {
      var headHistory := HeadHistory();
      ghost var os := Ancestors(store, rank, branches[branch]);
      ReachesRoot(store, rank, root, head.commitId);
      ReachesRoot(store, rank, root, branches[branch]);
      var other := store[branches[branch]];
      ghost var i := 0;
      assert Linked(store, rank, branches[branch]);
      assert os[|os| - 1] in headHistory;
      while other.id !in headHistory
        invariant 0 <= i < |os| && other == store[os[i]] && other.id == os[i]
        invariant forall j | 0 <= j < i :: os[j] !in headHistory
        decreases |os| - i
      {
        assert i + 1 < |os| && Next(other) == Some(os[i + 1]);
        var next := if other.prev2.Some? then GetCommit(other.prev2) else GetCommit(other.prev);
        assert next == Some(store[os[i + 1]]);
        other := next.value;
        i := i + 1;
        assert Linked(store, rank, os[i]);
      }
      SplitPointAt(store, rank, root, head.commitId, branches[branch], i);
      sp := other.id;
    }

    /** `writeConflict`: write and stage the conflict text for `name`. */
    method WriteConflict(name: string, cur: string, other: string)
      modifies this`cwd, head`newFiles, head`staged
      ensures cwd == old(cwd)[name := ConflictText(cur, other)]
      ensures (head.newFiles, head.staged) == StageAdd(old(head.newFiles), old(head.staged), name, ConflictText(cur, other))
    {
      var text := ConflictText(cur, other);
      WriteActualFile(name, text);
      head.AddFiles(name, text);
    }

    /** One iteration of `mergeHelper`, for the path `k` that the head's
        snapshot holds with content `v`: only the slot of `k` changes. */
    method MergeFirstPath(k: string, v: string, sp: map<string, string>, mb: map<string, string>)
      returns (conflict: bool)
      modifies this`cwd, head`newFiles, head`staged
      ensures SlotAt(head.newFiles, head.staged, cwd, k)
              == Apply(FirstPass(v, Lookup(sp, k), Lookup(mb, k)), old(SlotAt(head.newFiles, head.staged, cwd, k)))
      ensures forall j | j != k :: SlotAt(head.newFiles, head.staged, cwd, j)
                                   == old(SlotAt(head.newFiles, head.staged, cwd, j))
      ensures conflict == FirstPass(v, Lookup(sp, k), Lookup(mb, k)).Conflict?
    {
      conflict := false;
      if k in sp {
        if sp[k] == v {
          if k in mb {
            if mb[k] != v {
              head.AddFiles(k, mb[k]);
              WriteActualFile(k, mb[k]);
            }
          } else {
            head.RemoveStaged(k);
            cwd := cwd - {k};
          }
        } else {
          if k in mb {
            if mb[k] != v && mb[k] != sp[k] {
              WriteConflict(k, v, mb[k]);
              conflict := true;
            }
          } else {
            WriteConflict(k, v, "");
            conflict := true;
          }
        }
      } else {
        if k in mb && mb[k] != v {
          WriteConflict(k, v, mb[k]);
          conflict := true;
        }
      }
    }

    /** `mergeHelper`: the first pass, over every path of the head's
        snapshot `hn`, given the split point's files `sp` and the other
        tip's files `mb`. Returns whether it wrote a conflict. */
    method MergeHelper(hn: map<string, string>, sp: map<string, string>, mb: map<string, string>)
      returns (conflict: bool)
      modifies this`cwd, head`newFiles, head`staged
      ensures forall k :: SlotAt(head.newFiles, head.staged, cwd, k)
                          == AfterFirst(Lookup(hn, k), Lookup(sp, k), Lookup(mb, k),
                                        old(SlotAt(head.newFiles, head.staged, cwd, k)))
      ensures conflict <==> exists k | k in hn :: FirstPass(hn[k], Lookup(sp, k), Lookup(mb, k)).Conflict?
    {
      ghost var nf0, st0, wk0 := head.newFiles, head.staged, cwd;
      conflict := false;
      var keys := hn.Keys;
      while keys != {}
        invariant keys <= hn.Keys
        invariant forall k :: SlotAt(head.newFiles, head.staged, cwd, k)
                              == if k in hn && k !in keys
                                 then AfterFirst(Lookup(hn, k), Lookup(sp, k), Lookup(mb, k), SlotAt(nf0, st0, wk0, k))
                                 else SlotAt(nf0, st0, wk0, k)
        invariant conflict <==> exists k | k in hn && k !in keys :: FirstPass(hn[k], Lookup(sp, k), Lookup(mb, k)).Conflict?
        decreases keys
      {
        var k :| k in keys;
        ghost var nfa, sta, wka := head.newFiles, head.staged, cwd;
        var c := MergeFirstPath(k, hn[k], sp, mb);
        FirstPassStep(hn, sp, mb, keys, k, nf0, st0, wk0, nfa, sta, wka, head.newFiles, head.staged, cwd);
        conflict := conflict || c;
        keys := keys - {k};
      }
    }

    /** One iteration of the second loop of `merge`, for the path `k` that
        the other tip holds with content `w`. */
    method MergeSecondPath(k: string, w: string, sp: map<string, string>) returns (conflict: bool)
      modifies this`cwd, head`newFiles, head`staged
      ensures SlotAt(head.newFiles, head.staged, cwd, k)
              == Apply(SecondPass(Lookup(sp, k), w, k in old(head.staged)), old(SlotAt(head.newFiles, head.staged, cwd, k)))
      ensures forall j | j != k :: SlotAt(head.newFiles, head.staged, cwd, j)
                                   == old(SlotAt(head.newFiles, head.staged, cwd, j))
      ensures conflict == SecondPass(Lookup(sp, k), w, k in old(head.staged)).Conflict?
    {
      conflict := false;
      if k in sp {
        if sp[k] != w {
          if k !in head.staged {
            WriteConflict(k, "", w);
            conflict := true;
          }
        }
      } else {
        if k !in head.staged {
          head.AddFiles(k, w);
          WriteActualFile(k, w);
        }
      }
    }

    /** The second loop of `merge`, over every path of the other tip's files
        `mb`: a path absent from the split point `sp` is taken from the other
        tip, one changed since the split point is a conflict with an empty
        HEAD part; paths the first pass staged are skipped. */
    method MergeSecondPass(sp: map<string, string>, mb: map<string, string>) returns (conflict: bool)
      modifies this`cwd, head`newFiles, head`staged
      ensures forall k :: SlotAt(head.newFiles, head.staged, cwd, k)
                          == AfterSecond(Lookup(sp, k), Lookup(mb, k), old(SlotAt(head.newFiles, head.staged, cwd, k)))
      ensures conflict <==> exists k | k in mb :: SecondPass(Lookup(sp, k), mb[k], k in old(head.staged)).Conflict?
    {
      ghost var nf0, st0, wk0 := head.newFiles, head.staged, cwd;
      conflict := false;
      var keys := mb.Keys;
      while keys != {}
        invariant keys <= mb.Keys
        invariant forall k :: SlotAt(head.newFiles, head.staged, cwd, k)
                              == if k in mb && k !in keys
                                 then AfterSecond(Lookup(sp, k), Lookup(mb, k), SlotAt(nf0, st0, wk0, k))
                                 else SlotAt(nf0, st0, wk0, k)
        invariant conflict <==> exists k | k in mb && k !in keys :: SecondPass(Lookup(sp, k), mb[k], k in st0).Conflict?
        decreases keys
      {
        var k :| k in keys;
        ghost var nfa, sta, wka := head.newFiles, head.staged, cwd;
        var c := MergeSecondPath(k, mb[k], sp);
        SecondPassStep(sp, mb, keys, k, nf0, st0, wk0, nfa, sta, wka, head.newFiles, head.staged, cwd);
        conflict := conflict || c;
        keys := keys - {k};
      }
    }

    /** Both passes of `merge` over an unstaged head: every path ends as
        `MergePath` says, and a conflict is reported exactly when some path
        conflicts in either pass. */
    method MergeFiles(hn: map<string, string>, sp: map<string, string>, mb: map<string, string>)
      returns (conflict: bool)
      requires head.staged == map[]
      modifies this`cwd, head`newFiles, head`staged
      ensures forall k :: SlotAt(head.newFiles, head.staged, cwd, k)
                          == MergePath(Lookup(hn, k), Lookup(sp, k), Lookup(mb, k), old(SlotAt(head.newFiles, map[], cwd, k)))
      ensures conflict <==> exists k :: ConflictAt(Lookup(hn, k), Lookup(sp, k), Lookup(mb, k),
                                                   old(SlotAt(head.newFiles, map[], cwd, k)))
    {
      ghost var nf0, wk0 := head.newFiles, cwd;
      conflict := MergeHelper(hn, sp, mb);
      ghost var nf1, st1, wk1 := head.newFiles, head.staged, cwd;
      var more := MergeSecondPass(sp, mb);
      MergeConflictFlag(hn, sp, mb, nf0, wk0, st1, nf1, wk1, conflict, more);
      conflict := conflict || more;
    }

    /** `mergeCommit`: the merge commit, with the other tip as second parent. */
    method MergeCommit(branch: string, newId: string)
      requires Valid() && newId !in store && branch in branches
      modifies this`head, this`branches, this`store, this`rank
      ensures Valid()
      ensures fresh(head)
      ensures head.commitId == newId && head.prev == Some(old(head.commitId))
      ensures head.prev2 == Some(old(branches)[branch])
      ensures head.logMessage == "Merged " + branch + " into " + current + "."
      ensures head.files == old(head.newFiles) && head.newFiles == head.files
      ensures head.staged == map[] && head.removed == {} && head.untracked == map[] && head.modified == map[]
      ensures branches == old(branches)[current := newId]
      ensures store == old(store)[newId := head.Frozen()]
      ensures head.StagingAgrees()
    {
      AdvanceHead(Some(branches[branch]), "Merged " + branch + " into " + current + ".", newId);
    }

    /** The state a successful merge leaves, given the state before it: the
        old head's id, branch table and commits folder, the head's files
        `hn`, the split point's `sp`, the other tip's `mb`, and the overlay
        `nf0` and working directory `wk0` the merge started from. The new
        head `newId` is a child of the old head and of the other tip, named
        by the current branch and filed in the store, with a clean overlay;
        its files and the working directory hold, path by path, what
        `MergePath` gives; `conflict` says whether some path conflicted. */
    ghost predicate MergedAs(branch: string, newId: string, oldId: string,
                             oldBranches: map<string, string>, oldStore: Store,
                             hn: map<string, string>, sp: map<string, string>, mb: map<string, string>,
                             nf0: map<string, string>, wk0: map<string, string>, conflict: bool)
      reads this, head
    {
      && head.commitId == newId && head.prev == Some(oldId)
      && head.prev2 == Lookup(oldBranches, branch)
      && head.logMessage == "Merged " + branch + " into " + current + "."
      && branches == oldBranches[current := newId]
      && store == oldStore[newId := head.Frozen()]
      && head.newFiles == head.files
      && head.staged == map[] && head.removed == {} && head.untracked == map[] && head.modified == map[]
      && head.StagingAgrees()
      && (forall k :: Lookup(head.files, k)
                      == MergePath(Lookup(hn, k), Lookup(sp, k), Lookup(mb, k), SlotAt(nf0, map[], wk0, k)).tracked)
      && (forall k :: Lookup(cwd, k)
                      == MergePath(Lookup(hn, k), Lookup(sp, k), Lookup(mb, k), SlotAt(nf0, map[], wk0, k)).disk)
      && (conflict <==> exists k :: ConflictAt(Lookup(hn, k), Lookup(sp, k), Lookup(mb, k), SlotAt(nf0, map[], wk0, k)))
    }

    /** The part of `merge` after its checks: both passes over the three
        snapshots, the fast-forward notice, and the merge commit. */
    method MergeInto(branch: string, spId: string, newId: string) returns (fastForward: bool, conflict: bool)
      requires Valid() && newId !in store && branch in branches && spId in store
      requires head.staged == map[]
      modifies this`head, this`branches, this`store, this`rank, this`cwd, head`newFiles, head`staged
      ensures Valid()
      ensures fresh(head)
      ensures MergedAs(branch, newId, old(head.commitId), old(branches), old(store),
                       old(head.files), old(store)[spId].files, old(store)[old(branches)[branch]].files,
                       old(head.newFiles), old(cwd), conflict)
      ensures fastForward == (spId == old(head.commitId))
    {
      var hnFiles := head.files;
      var spFiles := store[spId].files;
      var mbFiles := store[branches[branch]].files;
      conflict := MergeFiles(hnFiles, spFiles, mbFiles);
      fastForward := spId == head.commitId;
      ghost var nf2 := head.newFiles;
      MergeCommit(branch, newId);
      forall k
        ensures Lookup(head.files, k) == SlotAt(nf2, head.staged, cwd, k).tracked
      {
      }
    }

    /** The part of `merge` after its first four checks: the split point
        is computed, the merge is refused when it is the other tip, and
        otherwise it proceeds as `MergeInto` says. */
    method MergeFromSplit(branch: string, newId: string) returns (status: Status, fastForward: bool, conflict: bool)
      requires Valid() && newId !in store && branch in branches
      requires head.staged == map[]
      modifies this`head, this`branches, this`store, this`rank, this`cwd, head`newFiles, head`staged
      ensures Valid()
      ensures status == if SplitPoint(old(store), old(rank), old(root), old(head.commitId), old(branches)[branch]) == old(branches)[branch]
                        then Fail(AncestorMerge) else Ok
      ensures status.Fail? ==> unchanged(this) && unchanged(head)
      ensures status.Ok? ==>
                var spId := SplitPoint(old(store), old(rank), old(root), old(head.commitId), old(branches)[branch]);
                && fresh(head) && current == old(current)
                && MergedAs(branch, newId, old(head.commitId), old(branches), old(store),
                            old(head.files), old(store)[spId].files, old(store)[old(branches)[branch]].files,
                            old(head.newFiles), old(cwd), conflict)
                && fastForward == (spId == old(head.commitId))
    {
      fastForward, conflict := false, false;
      var spId := GetSplitPoint(branch);
      if spId == branches[branch] {
        return Fail(AncestorMerge), fastForward, conflict;
      }
      fastForward, conflict := MergeInto(branch, spId, newId);
      status := Ok;
    }

    /** `merge`: refused, in this order, for uncommitted changes, a merge of
        the current branch with itself, an unknown branch, any untracked
        file, and a split point equal to the other tip. Otherwise both
        passes run over every path and a merge commit records the result;
        `fastForward` and `conflict` are the two notices it prints. */
    method Merge(branch: string, newId: string) returns (status: Status, fastForward: bool, conflict: bool)
      requires Valid() && newId !in store
      modifies this`head, this`branches, this`store, this`rank, this`cwd, head`newFiles, head`staged
      ensures Valid()
      ensures status == if old(head.staged) != map[] || old(head.removed) != {} then Fail(UncommittedChanges)
                        else if branch == old(current) then Fail(SelfMerge)
                        else if branch !in old(branches) then Fail(UnknownBranch)
                        else if old(head.untracked) != map[] then Fail(UntrackedInTheWay)
                        else if SplitPoint(old(store), old(rank), old(root), old(head.commitId), old(branches)[branch]) == old(branches)[branch] then Fail(AncestorMerge)
                        else Ok
      ensures status.Fail? ==> unchanged(this) && unchanged(head)
      ensures status.Ok? ==>
                var spId := SplitPoint(old(store), old(rank), old(root), old(head.commitId), old(branches)[branch]);
                && fresh(head) && current == old(current)
                && MergedAs(branch, newId, old(head.commitId), old(branches), old(store),
                            old(head.files), old(store)[spId].files, old(store)[old(branches)[branch]].files,
                            old(head.newFiles), old(cwd), conflict)
                && fastForward == (spId == old(head.commitId))
    {
      fastForward, conflict := false, false;
      if !(head.staged == map[] && head.removed == {}) {
        return Fail(UncommittedChanges), fastForward, conflict;
      }
      if branch == current {
        return Fail(SelfMerge), fastForward, conflict;
      }
      if branch !in branches {
        return Fail(UnknownBranch), fastForward, conflict;
      }
      if head.untracked != map[] {
        return Fail(UntrackedInTheWay), fastForward, conflict;
      }
      status, fastForward, conflict := MergeFromSplit(branch, newId);
    }
  }

  /** The conflict flag of `merge` is set exactly when some path conflicts
      in one of the two passes. */
  lemma MergeConflictFlag(hn: map<string, string>, sp: map<string, string>, mb: map<string, string>,
                          nf0: map<string, string>, wk0: map<string, string>,
                          st1: map<string, string>, nf1: map<string, string>, wk1: map<string, string>,
                          first: bool, second: bool)
    requires forall k :: SlotAt(nf1, st1, wk1, k)
                         == AfterFirst(Lookup(hn, k), Lookup(sp, k), Lookup(mb, k), SlotAt(nf0, map[], wk0, k))
    requires first <==> exists k | k in hn :: FirstPass(hn[k], Lookup(sp, k), Lookup(mb, k)).Conflict?
    requires second <==> exists k | k in mb :: SecondPass(Lookup(sp, k), mb[k], k in st1).Conflict?
    ensures (first || second) <==> exists k :: ConflictAt(Lookup(hn, k), Lookup(sp, k), Lookup(mb, k), SlotAt(nf0, map[], wk0, k))
  {
    if first {
      var k :| k in hn && FirstPass(hn[k], Lookup(sp, k), Lookup(mb, k)).Conflict?;
      assert ConflictAt(Lookup(hn, k), Lookup(sp, k), Lookup(mb, k), SlotAt(nf0, map[], wk0, k));
    }
    if second {
      var k :| k in mb && SecondPass(Lookup(sp, k), mb[k], k in st1).Conflict?;
      SecondConflictAt(hn, sp, mb, nf0, wk0, st1, nf1, wk1, k);
    }
    if exists k :: ConflictAt(Lookup(hn, k), Lookup(sp, k), Lookup(mb, k), SlotAt(nf0, map[], wk0, k)) {
      var k :| ConflictAt(Lookup(hn, k), Lookup(sp, k), Lookup(mb, k), SlotAt(nf0, map[], wk0, k));
      ConflictAtPasses(hn, sp, mb, nf0, wk0, st1, nf1, wk1, k);
    }
  }

  /** A second-pass conflict on `k` is a conflict of `k` through both passes. */
  lemma SecondConflictAt(hn: map<string, string>, sp: map<string, string>, mb: map<string, string>,
                         nf0: map<string, string>, wk0: map<string, string>,
                         st1: map<string, string>, nf1: map<string, string>, wk1: map<string, string>,
                         k: string)
    requires SlotAt(nf1, st1, wk1, k)
             == AfterFirst(Lookup(hn, k), Lookup(sp, k), Lookup(mb, k), SlotAt(nf0, map[], wk0, k))
    requires k in mb && SecondPass(Lookup(sp, k), mb[k], k in st1).Conflict?
    ensures ConflictAt(Lookup(hn, k), Lookup(sp, k), Lookup(mb, k), SlotAt(nf0, map[], wk0, k))
  {
    assert SlotAt(nf1, st1, wk1, k).staged.Some? == (k in st1);
  }

  /** A conflict of `k` through both passes comes from one of the passes. */
  lemma ConflictAtPasses(hn: map<string, string>, sp: map<string, string>, mb: map<string, string>,
                         nf0: map<string, string>, wk0: map<string, string>,
                         st1: map<string, string>, nf1: map<string, string>, wk1: map<string, string>,
                         k: string)
    requires SlotAt(nf1, st1, wk1, k)
             == AfterFirst(Lookup(hn, k), Lookup(sp, k), Lookup(mb, k), SlotAt(nf0, map[], wk0, k))
    requires ConflictAt(Lookup(hn, k), Lookup(sp, k), Lookup(mb, k), SlotAt(nf0, map[], wk0, k))
    ensures || (k in hn && FirstPass(hn[k], Lookup(sp, k), Lookup(mb, k)).Conflict?)
            || (k in mb && SecondPass(Lookup(sp, k), mb[k], k in st1).Conflict?)
  {
    assert SlotAt(nf1, st1, wk1, k).staged.Some? == (k in st1);
  }

  /** One iteration of `mergeHelper` keeps its loop invariant: the paths
      done so far hold `AfterFirst` of their slot at the start, the others
      their starting slot. */
  lemma FirstPassStep(hn: map<string, string>, sp: map<string, string>, mb: map<string, string>,
                      keys: set<string>, k: string,
                      nf0: map<string, string>, st0: map<string, string>, wk0: map<string, string>,
                      nfa: map<string, string>, sta: map<string, string>, wka: map<string, string>,
                      nfb: map<string, string>, stb: map<string, string>, wkb: map<string, string>)
    requires k in keys && keys <= hn.Keys
    requires forall j :: SlotAt(nfa, sta, wka, j)
                         == if j in hn && j !in keys
                            then AfterFirst(Lookup(hn, j), Lookup(sp, j), Lookup(mb, j), SlotAt(nf0, st0, wk0, j))
                            else SlotAt(nf0, st0, wk0, j)
    requires SlotAt(nfb, stb, wkb, k) == Apply(FirstPass(hn[k], Lookup(sp, k), Lookup(mb, k)), SlotAt(nfa, sta, wka, k))
    requires forall j | j != k :: SlotAt(nfb, stb, wkb, j) == SlotAt(nfa, sta, wka, j)
    ensures forall j :: SlotAt(nfb, stb, wkb, j)
                        == if j in hn && j !in keys - {k}
                           then AfterFirst(Lookup(hn, j), Lookup(sp, j), Lookup(mb, j), SlotAt(nf0, st0, wk0, j))
                           else SlotAt(nf0, st0, wk0, j)
  {
    assert SlotAt(nfa, sta, wka, k) == SlotAt(nf0, st0, wk0, k);
  }

  /** One iteration of the second loop of `merge` keeps its loop invariant:
      the paths done so far hold `AfterSecond` of their slot at the start,
      the others their starting slot. */
  lemma SecondPassStep(sp: map<string, string>, mb: map<string, string>, keys: set<string>, k: string,
                       nf0: map<string, string>, st0: map<string, string>, wk0: map<string, string>,
                       nfa: map<string, string>, sta: map<string, string>, wka: map<string, string>,
                       nfb: map<string, string>, stb: map<string, string>, wkb: map<string, string>)
    requires k in keys && keys <= mb.Keys
    requires forall j :: SlotAt(nfa, sta, wka, j)
                         == if j in mb && j !in keys
                            then AfterSecond(Lookup(sp, j), Lookup(mb, j), SlotAt(nf0, st0, wk0, j))
                            else SlotAt(nf0, st0, wk0, j)
    requires SlotAt(nfb, stb, wkb, k) == Apply(SecondPass(Lookup(sp, k), mb[k], k in sta), SlotAt(nfa, sta, wka, k))
    requires forall j | j != k :: SlotAt(nfb, stb, wkb, j) == SlotAt(nfa, sta, wka, j)
    ensures forall j :: SlotAt(nfb, stb, wkb, j)
                        == if j in mb && j !in keys - {k}
                           then AfterSecond(Lookup(sp, j), Lookup(mb, j), SlotAt(nf0, st0, wk0, j))
                           else SlotAt(nf0, st0, wk0, j)
    ensures (k in sta) == (k in st0)
  {
    assert SlotAt(nfa, sta, wka, k) == SlotAt(nf0, st0, wk0, k);
    assert (k in sta) == SlotAt(nfa, sta, wka, k).staged.Some?;
  }

  /** A new commit whose parents are stored keeps the commit graph well
      formed, keeps every branch pointing into the store when the current
      branch moves to it, and puts itself in front of its first parent's log. */
  lemma CommitStep(store: Store, rank: map<string, nat>, root: string,
                   branches: map<string, string>, moved: map<string, string>, current: string,
                   s: Snapshot) returns (r: nat)
    requires Graph(store, rank, root) && s.id !in store
    requires s.prev.Some? && s.prev.value in store
    requires s.prev2.Some? ==> s.prev2.value in store
    requires forall b | b in branches :: branches[b] in store
    requires moved == branches[current := s.id]
    ensures Graph(store[s.id := s], rank[s.id := r], root)
    ensures forall b | b in moved :: moved[b] in store[s.id := s]
    ensures LogChain(store[s.id := s], rank[s.id := r], s.id) == [s.id] + LogChain(store, rank, s.prev.value)
  {
    assert Linked(store, rank, s.prev.value);
    if s.prev2.Some? {
      assert Linked(store, rank, s.prev2.value);
    }
    r := (if s.prev2.Some? && rank[s.prev2.value] > rank[s.prev.value]
          then rank[s.prev2.value] else rank[s.prev.value]) + 1;
    GraphExtend(store, rank, root, s, r);
    LogAfterCommit(store, rank, s, r);
  }

  /** One iteration of the loop of `updateUntracked` keeps its loop
      invariant: the listed paths already visited that are not in the
      overlay are recorded as untracked and are no longer modified. */
  lemma UntrackedStep(cwd: map<string, string>, nf: map<string, string>, listing: set<string>, f: string,
                      u0: map<string, string>, m0: map<string, Option<string>>,
                      ua: map<string, string>, ma: map<string, Option<string>>,
                      ub: map<string, string>, mb: map<string, Option<string>>)
    requires f in listing && listing <= cwd.Keys
    requires forall g :: Lookup(ua, g) == if g in cwd && g !in nf && g !in listing then Some(cwd[g]) else Lookup(u0, g)
    requires forall g :: Lookup(ma, g) == if g in cwd && g !in nf && g !in listing then None else Lookup(m0, g)
    requires ub == if f !in nf then ua[f := cwd[f]] else ua
    requires mb == if f !in nf then ma - {f} else ma
    ensures forall g :: Lookup(ub, g)
                        == if g in cwd && g !in nf && g !in listing - {f} then Some(cwd[g]) else Lookup(u0, g)
    ensures forall g :: Lookup(mb, g)
                        == if g in cwd && g !in nf && g !in listing - {f} then None else Lookup(m0, g)
  {
  }
}
