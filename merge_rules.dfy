/** The per-path decisions of `merge` in Main.java: the first pass over the
    head's files (`mergeHelper`), the second pass over the other tip's files,
    the conflict text of `writeConflict`, and git's usual three-way merge
    rule, against which the two passes are compared. */
module MergeRules {
  import opened Base

  /** The file `writeConflict` writes and stages for a conflicting path. */
  function ConflictText(cur: string, other: string): (t: string)
    ensures |t| == |cur| + |other| + 29
    ensures t[..13] == "<<<<<<< HEAD\n" && t[|t| - 8..] == ">>>>>>>\n"
    ensures t[13..13 + |cur|] == cur && t[13 + |cur|..21 + |cur|] == "=======\n"
    ensures t[21 + |cur|..|t| - 8] == other
  {
    "<<<<<<< HEAD\n" + cur + "=======\n" + other + ">>>>>>>\n"
  }

  /** What one pass does to one path. */
  datatype Action =
    | Keep                                  // nothing
    | Take(content: string)                 // addFiles(path, content) and write the file
    | Drop                                  // removeStaged(path) and delete the file
    | Conflict(cur: string, other: string)  // writeConflict(path, cur, other)

  /** Everything a merge can change about one path: its overlay entry
      (`newFiles`), its staged entry and its working-directory file. */
  datatype Slot = Slot(tracked: Option<string>, staged: Option<string>, disk: Option<string>)

  function SlotAt(newFiles: map<string, string>, staged: map<string, string>,
                  cwd: map<string, string>, path: string): Slot
  {
    Slot(Lookup(newFiles, path), Lookup(staged, path), Lookup(cwd, path))
  }

  /** `addFiles` on one slot: a no-op when the overlay already holds `c`. */
  function StageSlot(x: Slot, c: string): (y: Slot)
    ensures y.tracked == Some(c) && y.disk == x.disk
    ensures y.staged == (if x.tracked == Some(c) then x.staged else Some(c))
  {
    if x.tracked == Some(c) then x else x.(tracked := Some(c), staged := Some(c))
  }

  /** The effect of one action on a slot: `Keep` leaves it alone, `Drop`
      empties it, and `Take` and `Conflict` leave the working file equal to
      the overlay, staging the new content unless the overlay held it. */
  function Apply(a: Action, x: Slot): (y: Slot)
    ensures a.Keep? ==> y == x
    ensures a.Drop? ==> y.tracked.None? && y.staged.None? && y.disk.None?
    ensures a.Take? ==> y.tracked == y.disk == Some(a.content)
    ensures a.Conflict? ==> y.tracked == y.disk == Some(ConflictText(a.cur, a.other))
    ensures a.Take? ==> y.staged == (if x.tracked == Some(a.content) then x.staged else Some(a.content))
    ensures a.Conflict? ==>
              var t := ConflictText(a.cur, a.other);
              y.staged == (if x.tracked == Some(t) then x.staged else Some(t))
  {
    match a
    case Keep => x
    case Take(c) => StageSlot(x, c).(disk := Some(c))
    case Drop => Slot(None, None, None)
    case Conflict(cur, other) =>
      var t := ConflictText(cur, other);
      StageSlot(x, t).(disk := Some(t))
  }

  /** `mergeHelper`'s decision for a path the head holds with content `h`,
      given its split-point content `s` and other-tip content `m`. */
  function FirstPass(h: string, s: Option<string>, m: Option<string>): (a: Action)
    ensures a.Conflict? <==> ReferenceConflict(Some(h), s, m)
    ensures a.Conflict? ==> a == Conflict(h, m.GetOr(""))
    ensures a.Take? <==> s == Some(h) && m.Some? && m != s
    ensures a.Take? ==> a.content == m.value
    ensures a.Drop? <==> s == Some(h) && m.None?
  {
    match s
    case Some(sv) =>
      if sv == h then
        (match m
         case Some(mv) => if mv != h then Take(mv) else Keep
         case None => Drop)
      else
        (match m
         case Some(mv) => if mv != h && mv != sv then Conflict(h, mv) else Keep
         case None => Conflict(h, ""))
    case None =>
      (match m
       case Some(mv) => if mv != h then Conflict(h, mv) else Keep
       case None => Keep)
  }

  /** The second loop of `merge` for a path the other tip holds with content
      `m`; `stagedNow` says whether the first pass left the path staged. */
  function SecondPass(s: Option<string>, m: string, stagedNow: bool): (a: Action)
    ensures stagedNow ==> a == Keep
    ensures !a.Drop?
    ensures a.Conflict? <==> !stagedNow && s.Some? && s != Some(m)
    ensures a.Conflict? ==> a == Conflict("", m)
    ensures a.Take? <==> !stagedNow && s.None?
    ensures a.Take? ==> a.content == m
  {
    match s
    case Some(sv) => if sv != m && !stagedNow then Conflict("", m) else Keep
    case None => if !stagedNow then Take(m) else Keep
  }

  function AfterFirst(h: Option<string>, s: Option<string>, m: Option<string>, x: Slot): Slot {
    if h.Some? then Apply(FirstPass(h.value, s, m), x) else x
  }

  function AfterSecond(s: Option<string>, m: Option<string>, x: Slot): Slot {
    if m.Some? then Apply(SecondPass(s, m.value, x.staged.Some?), x) else x
  }

  /** One path through both passes, starting from slot `x`. */
  function MergePath(h: Option<string>, s: Option<string>, m: Option<string>, x: Slot): (y: Slot)
    ensures m == s ==> y == x
    ensures y == x || y.disk == y.tracked
  {
    AfterSecond(s, m, AfterFirst(h, s, m, x))
  }

  /** Whether either pass ran `writeConflict` on the path. A path the other
      side left as at the split point never conflicts; two different changes
      always do unless the head lacks the path and it is already staged; and
      a conflicting path ends up tracked. */
  function ConflictAt(h: Option<string>, s: Option<string>, m: Option<string>, x: Slot): (conflict: bool)
    ensures m == s ==> !conflict
    ensures ReferenceConflict(h, s, m) && (h.Some? || x.staged.None?) ==> conflict
    ensures conflict ==> MergePath(h, s, m, x).tracked.Some?
  {
    || (h.Some? && FirstPass(h.value, s, m).Conflict?)
    || (m.Some? && SecondPass(s, m.value, AfterFirst(h, s, m, x).staged.Some?).Conflict?)
  }

  /** Git's usual three-way merge rule: the content a path should have
      after merging, given head `h`, split point `s` and other tip `m`. A side
      that left the path as at the split point yields to the other; both
      sides making the same change keep it; two different changes conflict. */
  function Reference(h: Option<string>, s: Option<string>, m: Option<string>): (r: Option<string>)
    ensures h == s ==> r == m
    ensures m == s || m == h ==> r == h
    ensures ReferenceConflict(h, s, m) ==> r == Some(ConflictText(h.GetOr(""), m.GetOr("")))
  {
    if h == s then m
    else if m == s || m == h then h
    else Some(ConflictText(h.GetOr(""), m.GetOr("")))
  }

  predicate ReferenceConflict(h: Option<string>, s: Option<string>, m: Option<string>) {
    h != s && m != s && m != h
  }

  /** Both sides changed the path from the split point to the same content. */
  predicate SameChange(h: Option<string>, s: Option<string>, m: Option<string>) {
    h.Some? && s.Some? && h == m && h != s
  }

  /** The slot of a path with no local edits: its overlay and working file
      agree with the head's snapshot and it is not staged. `merge` itself
      checks only the staged, removed and untracked maps (Main.java:443-451),
      never the working files, so an unstaged edit to a working file is
      overwritten or deleted as `Apply` says. */
  function Clean(h: Option<string>): Slot {
    Slot(h, None, h)
  }

  /** On a clean path the two passes agree with `Reference` everywhere except
      where both sides made the same change: there the second pass, seeing
      the path unstaged and different from the split point, writes a
      conflict whose HEAD part is empty. The working file always ends up
      equal to the overlay, and a staged entry is the overlay's content. */
  lemma MergeFollowsTable(h: Option<string>, s: Option<string>, m: Option<string>)
    ensures var y := MergePath(h, s, m, Clean(h));
            && y.disk == y.tracked
            && (y.staged.Some? ==> y.staged == y.tracked)
            && (if SameChange(h, s, m)
                then y.tracked == Some(ConflictText("", m.value)) && ConflictAt(h, s, m, Clean(h))
                else y.tracked == Reference(h, s, m)
                     && (ConflictAt(h, s, m, Clean(h)) <==> ReferenceConflict(h, s, m)))
  {
    var hc := ConflictText(h.GetOr(""), m.GetOr(""));
    assert |hc| > |h.GetOr("")|;
  }

  /** Swapping the two sides around the same split point flags the same
      paths as conflicts. */
  lemma ConflictSymmetric(h: Option<string>, s: Option<string>, m: Option<string>)
    ensures ConflictAt(h, s, m, Clean(h)) == ConflictAt(m, s, h, Clean(m))
  {
    MergeFollowsTable(h, s, m);
    MergeFollowsTable(m, s, h);
  }

  /** The symmetry needs a clean slot. After `checkout <other> -- f` the
      overlay and working file already hold the other side's "b" while the
      path stays unstaged; `mergeHelper`'s `addFiles` is then a no-op, so the
      second loop writes a conflict with an empty HEAD part, although the
      swapped clean path does not conflict. */
  lemma CheckedOutExample()
    ensures var x := Slot(Some("b"), None, Some("b"));
            && ConflictAt(Some("a"), Some("a"), Some("b"), x)
            && MergePath(Some("a"), Some("a"), Some("b"), x).tracked == Some(ConflictText("", "b"))
            && !ConflictAt(Some("b"), Some("a"), Some("a"), Clean(Some("b")))
  {
    assert "b" != "a";
  }

  /** Split point "a", head "b", other "c": the conflict file holds both. */
  lemma ConflictExample()
    ensures MergePath(Some("b"), Some("a"), Some("c"), Clean(Some("b"))).tracked
            == Some("<<<<<<< HEAD\nb=======\nc>>>>>>>\n")
  {
    var t := ConflictText("b", "c");
    assert t == "<<<<<<< HEAD\nb=======\nc>>>>>>>\n";
    assert "b" != "a" && "c" != "a" && "c" != "b" && t != "b";
  }

  /** The head left "x" alone and the other side deleted it: the path
      leaves the overlay and the working directory. */
  lemma DeletionExample()
    ensures MergePath(Some("x"), Some("x"), None, Clean(Some("x"))) == Slot(None, None, None)
  {
  }

  /** Both sides changed "a" to "b": the code still writes a conflict, with
      an empty HEAD part. */
  lemma SameChangeExample()
    ensures MergePath(Some("b"), Some("a"), Some("b"), Clean(Some("b"))).tracked
            == Some("<<<<<<< HEAD\n=======\nb>>>>>>>\n")
  {
    var t := ConflictText("", "b");
    assert t == "<<<<<<< HEAD\n=======\nb>>>>>>>\n";
    assert "b" != "a";
  }
}
