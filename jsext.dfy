/** The post-build import fixer (backend/scripts/add-js-extensions.js): in
    each emitted `.js` file it gives every relative import specifier an
    explicit `.js` target, in three passes (`from` clauses, `export … from`
    clauses, dynamic `import()`), and rewrites the file only when a pass
    changed something. A file is modelled as a sequence of segments, each
    specifier tagged with the passes whose pattern matches it; the file
    system is an oracle. */
module JsExtensions {
  import opened Common

  function StartsWith(s: string, prefix: string): bool {
    |prefix| <= |s| && s[..|prefix|] == prefix
  }

  function EndsWith(s: string, suffix: string): bool {
    |suffix| <= |s| && s[|s| - |suffix|..] == suffix
  }

  /** `s.includes(t)`. */
  predicate Contains(s: string, t: string) {
    exists i | 0 <= i <= |s| :: StartsWith(s[i..], t)
  }

  /** The three replace passes of `processFile`, in the order they run. */
  datatype Pass = FromClause | ExportFrom | DynamicImport

  /** What the file system answers about a specifier, resolved against the
      directory of the file being fixed: whether it names an existing
      directory, and whether the specifier with `.js` appended names an
      existing file. */
  datatype Disk = Disk(isDirectory: string -> bool, jsFileExists: string -> bool)

  /** The specifiers the three patterns capture: `./` or `../` followed by at
      least one character, with no quote inside. */
  predicate IsCandidate(p: string) {
    && ((StartsWith(p, "./") && |p| > 2) || (StartsWith(p, "../") && |p| > 3))
    && '\'' !in p && '"' !in p
  }

  /** A specifier left as it is: it already ends in `.js` or `.json`, or it
      points into `node_modules`. */
  predicate Skipped(p: string) {
    EndsWith(p, ".js") || EndsWith(p, ".json") || Contains(p, "node_modules")
  }

  /** `resolveTarget`: a directory gets `index.js` after its (added) slash;
      anything else gets `.js`, whether or not that file exists. */
  function ResolveTarget(p: string, disk: Disk): (t: string)
    ensures StartsWith(t, p) && EndsWith(t, ".js")
  {
    var t :=
      if disk.isDirectory(p) then
        if EndsWith(p, "/") then p + "index.js" else p + "/index.js"
      else if disk.jsFileExists(p) then p + ".js"
      else p + ".js";
    assert t[..|p|] == p;
    assert t[|t| - 3..] == ".js";
    t
  }

  /** Whether `p.js` exists never changes the target. */
  lemma {:induction false} TargetIgnoresJsFile(p: string, isDirectory: string -> bool,
                                               e1: string -> bool, e2: string -> bool)
    ensures ResolveTarget(p, Disk(isDirectory, e1)) == ResolveTarget(p, Disk(isDirectory, e2))
    ensures !isDirectory(p) ==> ResolveTarget(p, Disk(isDirectory, e1)) == p + ".js"
  {
  }

  /** What one replace callback does with a captured specifier. */
  function Rewrite(p: string, disk: Disk): string {
    if Skipped(p) then p else ResolveTarget(p, disk)
  }

  lemma {:induction false} StartsWithPrefix(p: string, t: string, prefix: string)
    requires StartsWith(t, p) && StartsWith(p, prefix)
    ensures StartsWith(t, prefix)
  {
    assert t[..|prefix|] == t[..|p|][..|prefix|];
  }

  /** A rewritten specifier is skipped by any later pass, keeps its prefix
      and stays a candidate when its target adds no quote; so rewriting
      twice is rewriting once. */
  lemma {:induction false} RewriteIdempotent(p: string, disk: Disk)
    ensures Skipped(Rewrite(p, disk))
    ensures Rewrite(Rewrite(p, disk), disk) == Rewrite(p, disk)
    ensures IsCandidate(p) ==> IsCandidate(Rewrite(p, disk))
  {
    var t := Rewrite(p, disk);
    if IsCandidate(p) && !Skipped(p) {
      var r := ResolveTarget(p, disk);
      assert r[..|p|] == p;
      if StartsWith(p, "./") { StartsWithPrefix(p, r, "./"); }
      if StartsWith(p, "../") { StartsWithPrefix(p, r, "../"); }
      var suffix := r[|p|..];
      assert r == p + suffix;
      assert suffix == "index.js" || suffix == "/index.js" || suffix == ".js";
      assert '\'' !in suffix && '"' !in suffix;
    }
  }

  // ---------------------------------------------------------------------------
  // A file

  /** A piece of a file: code, or an import specifier together with the
      passes whose pattern captures it. */
  datatype Segment = Code(text: string) | Specifier(path: string, matchedBy: set<Pass>)

  /** Pass `pass` captures `seg`. */
  predicate Captures(pass: Pass, seg: Segment) {
    seg.Specifier? && pass in seg.matchedBy && IsCandidate(seg.path)
  }

  /** Pass `pass` rewrites `seg`, setting `changed`. */
  predicate Changes(pass: Pass, seg: Segment) {
    Captures(pass, seg) && !Skipped(seg.path)
  }

  /** One segment after pass `pass`. */
  function PassSegment(pass: Pass, seg: Segment, disk: Disk): Segment {
    if Captures(pass, seg) then seg.(path := Rewrite(seg.path, disk)) else seg
  }

  /** `content.replace(pattern, callback)` for pass `pass`. */
  function PassSpec(content: seq<Segment>, pass: Pass, disk: Disk): (r: seq<Segment>)
    ensures |r| == |content|
    ensures forall i | 0 <= i < |content| :: r[i] == PassSegment(pass, content[i], disk)
  {
    seq(|content|, i requires 0 <= i < |content| => PassSegment(pass, content[i], disk))
  }

  /** Pass `pass` sets `changed` on `content`. */
  predicate PassChanges(content: seq<Segment>, pass: Pass) {
    exists i | 0 <= i < |content| :: Changes(pass, content[i])
  }

  /** One replace pass: every captured specifier that is not skipped is
      replaced by its target, and `changed` is set when that happens. */
  method ReplacePass(content: seq<Segment>, pass: Pass, disk: Disk, changedBefore: bool)
    returns (modified: seq<Segment>, changed: bool)
    ensures modified == PassSpec(content, pass, disk)
    ensures changed <==> changedBefore || PassChanges(content, pass)
  {
    modified := [];
    changed := changedBefore;
    for i := 0 to |content|
      invariant modified == PassSpec(content[..i], pass, disk)
      invariant changed <==> changedBefore || PassChanges(content[..i], pass)
    {
      var seg := content[i];
      PassChangesStep(content, pass, i);
      PassSpecStep(content, pass, disk, i);
      if Captures(pass, seg) {
        if Skipped(seg.path) {
          modified := modified + [seg];
        } else {
          changed := true;
          modified := modified + [seg.(path := ResolveTarget(seg.path, disk))];
        }
      } else {
        modified := modified + [seg];
      }
    }
    assert content[..|content|] == content;
  }

  /** Reading one more segment appends its rewrite. */
  lemma {:induction false} PassSpecStep(content: seq<Segment>, pass: Pass, disk: Disk, i: nat)
    requires i < |content|
    ensures PassSpec(content[..i + 1], pass, disk) == PassSpec(content[..i], pass, disk) + [PassSegment(pass, content[i], disk)]
  {
  }

  /** Reading one more segment sets `changed` iff it was set or that
      segment changes. */
  lemma {:induction false} PassChangesStep(content: seq<Segment>, pass: Pass, i: nat)
    requires i < |content|
    ensures PassChanges(content[..i + 1], pass) <==> PassChanges(content[..i], pass) || Changes(pass, content[i])
  {
    var pre, cur := content[..i], content[..i + 1];
    if PassChanges(cur, pass) && !Changes(pass, content[i]) {
      var j :| 0 <= j < |cur| && Changes(pass, cur[j]);
      assert pre[j] == cur[j];
    }
    if PassChanges(pre, pass) {
      var j :| 0 <= j < |pre| && Changes(pass, pre[j]);
      assert cur[j] == pre[j];
    }
    if Changes(pass, content[i]) {
      assert cur[i] == content[i];
    }
  }

  // ---------------------------------------------------------------------------
  // The three passes together

  /** A segment some pass captures. */
  predicate Captured(seg: Segment) {
    seg.Specifier? && seg.matchedBy != {} && IsCandidate(seg.path)
  }

  /** Every captured specifier rewritten once. */
  function RewriteAll(content: seq<Segment>, disk: Disk): (r: seq<Segment>)
    ensures |r| == |content|
  {
    seq(|content|, i requires 0 <= i < |content| =>
      if Captured(content[i]) then content[i].(path := Rewrite(content[i].path, disk)) else content[i])
  }

  /** Some captured specifier is not skipped. */
  predicate NeedsFixing(content: seq<Segment>) {
    exists i | 0 <= i < |content| :: Captured(content[i]) && !Skipped(content[i].path)
  }

  /** All three passes on one segment are one rewrite of it, and some pass
      changes it iff it is captured and not skipped. */
  lemma {:induction false} ThreePassesSegment(seg: Segment, disk: Disk)
    ensures var s1 := PassSegment(FromClause, seg, disk);
            var s2 := PassSegment(ExportFrom, s1, disk);
            && PassSegment(DynamicImport, s2, disk)
               == (if Captured(seg) then seg.(path := Rewrite(seg.path, disk)) else seg)
            && (Changes(FromClause, seg) || Changes(ExportFrom, s1) || Changes(DynamicImport, s2)
                <==> Captured(seg) && !Skipped(seg.path))
  {
    if Captured(seg) {
      var t := seg.(path := Rewrite(seg.path, disk));
      RewriteIdempotent(seg.path, disk);
      assert forall pass :: PassSegment(pass, t, disk) == t && !Changes(pass, t);
      assert forall pass :: PassSegment(pass, seg, disk) == if pass in seg.matchedBy then t else seg;
      var s1 := PassSegment(FromClause, seg, disk);
      var s2 := PassSegment(ExportFrom, s1, disk);
      if FromClause in seg.matchedBy {
        assert s1 == t && s2 == t;
      } else if ExportFrom in seg.matchedBy {
        assert s1 == seg && s2 == t;
      } else {
        assert s1 == seg && s2 == seg;
        var q :| q in seg.matchedBy;
        assert q == DynamicImport;
      }
    }
  }


  /** The three passes rewrite every captured specifier once, and together
      they set `changed` iff some captured specifier was not skipped. */
  lemma {:induction false} ThreePasses(content: seq<Segment>, disk: Disk)
    ensures var c1 := PassSpec(content, FromClause, disk);
            var c2 := PassSpec(c1, ExportFrom, disk);
            && PassSpec(c2, DynamicImport, disk) == RewriteAll(content, disk)
            && (PassChanges(content, FromClause) || PassChanges(c1, ExportFrom) || PassChanges(c2, DynamicImport)
                <==> NeedsFixing(content))
  {
    var c1 := PassSpec(content, FromClause, disk);
    var c2 := PassSpec(c1, ExportFrom, disk);
    forall i | 0 <= i < |content|
      ensures PassSpec(c2, DynamicImport, disk)[i] == RewriteAll(content, disk)[i]
      ensures Changes(FromClause, content[i]) || Changes(ExportFrom, c1[i]) || Changes(DynamicImport, c2[i])
              <==> Captured(content[i]) && !Skipped(content[i].path)
    {
      ThreePassesSegment(content[i], disk);
    }
  }

  /** `processFile`: run the three passes, carrying `changed` across them,
      and write the result only when it is set. None stands for a file left
      unwritten. */
  method ProcessFile(content: seq<Segment>, disk: Disk) returns (written: Option<seq<Segment>>)
    ensures written.Some? <==> NeedsFixing(content)
    ensures written.Some? ==> written.value == RewriteAll(content, disk)
  {
    var modified := content;
    var changed := false;
    modified, changed := ReplacePass(modified, FromClause, disk, changed);
    modified, changed := ReplacePass(modified, ExportFrom, disk, changed);
    modified, changed := ReplacePass(modified, DynamicImport, disk, changed);
    ThreePasses(content, disk);
    if changed {
      written := Some(modified);
    } else {
      written := None;
    }
  }

  /** Running the fixer again on a fixed file writes nothing: the script is
      idempotent. */
  lemma {:induction false} FixedNeedsNoFixing(content: seq<Segment>, disk: Disk)
    ensures !NeedsFixing(RewriteAll(content, disk))
    ensures RewriteAll(RewriteAll(content, disk), disk) == RewriteAll(content, disk)
  {
    var fixed := RewriteAll(content, disk);
    forall i | 0 <= i < |content|
      ensures !(Captured(fixed[i]) && !Skipped(fixed[i].path))
      ensures RewriteAll(fixed, disk)[i] == fixed[i]
    {
      if content[i].Specifier? {
        RewriteIdempotent(content[i].path, disk);
      }
    }
  }

  /** Only a captured specifier that is not skipped changes, and it changes
      into its target, which extends it and ends in `.js`. */
  lemma {:induction false} OnlyCandidatesChange(content: seq<Segment>, disk: Disk, i: nat)
    requires i < |content|
    requires RewriteAll(content, disk)[i] != content[i]
    ensures Captured(content[i]) && !Skipped(content[i].path)
    ensures var t := RewriteAll(content, disk)[i];
            && t == content[i].(path := ResolveTarget(content[i].path, disk))
            && StartsWith(t.path, content[i].path) && EndsWith(t.path, ".js")
  {
  }
}
