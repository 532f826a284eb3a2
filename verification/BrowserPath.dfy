/**
 Relative links between documentation pages: `relative_browser_path` against reference resolution by section 5.2 of
 RFC 3986 (merging in 5.2.3, dot segments in 5.2.4), on lists of path segments.
 */
module BrowserPath {
  import opened Prelude
  import opened Text
  import opened RouteMatching

  /** The non-empty '/'-separated parts. */
  function NonEmpty(parts: seq<string>): seq<string> {
    if parts == [] then []
    else (if parts[0] == "" then [] else [parts[0]]) + NonEmpty(parts[1..])
  }

  lemma {:induction false} NonEmptySelects(parts: seq<string>)
    ensures forall p | p in NonEmpty(parts) :: p in parts && p != ""
    decreases |parts|
  {
    if parts != [] {
      NonEmptySelects(parts[1..]);
    }
  }

  function PathSegments(path: string): seq<string> {
    NonEmpty(SplitSlash(path))
  }

  function CommonLength(a: seq<string>, b: seq<string>): (n: nat)
    ensures n <= |a| && n <= |b| && a[..n] == b[..n]
    ensures n < |a| && n < |b| ==> a[n] != b[n]
  {
    if a == [] || b == [] || a[0] != b[0] then 0
    else
      var n := 1 + CommonLength(a[1..], b[1..]);
      assert a[..n] == [a[0]] + a[1..][..n - 1] && b[..n] == [b[0]] + b[1..][..n - 1];
      n
  }

  function Ups(n: nat): (r: seq<string>)
    ensures |r| == n && forall i | 0 <= i < n :: r[i] == ".."
  {
    seq(n, _ => "..")
  }

  /** The segments of the link from a page in directory `dir` to `target`; none means the directory itself. */
  function RelativeParts(dir: seq<string>, target: seq<string>): seq<string> {
    var n := CommonLength(dir, target);
    Ups(|dir| - n) + target[n..]
  }

  /** The link is printed as the segments, or "." when there are none. */
  function LinkSegments(parts: seq<string>): seq<string> {
    if parts == [] then ["."] else parts
  }

  function DirectoryOf(segments: seq<string>): seq<string> {
    if segments == [] then [] else segments[..|segments| - 1]
  }

  /** Following the segments of a reference from a directory: section 5.2.4, "." and ".." at the root included. */
  function Follow(dir: seq<string>, reference: seq<string>): seq<string>
    decreases |reference|
  {
    if reference == [] then dir
    else
      var s := reference[0];
      Follow(if s == "." then dir else if s == ".." then DirectoryOf(dir) else dir + [s], reference[1..])
  }

  predicate IsName(s: string) {
    s != "" && s != "." && s != ".."
  }

  ghost predicate Names(segments: seq<string>) {
    forall i | 0 <= i < |segments| :: IsName(segments[i])
  }

  lemma {:induction false} UpsSnoc(n: nat)
    ensures Ups(n) + [".."] == Ups(n + 1)
  {
  }

  lemma {:induction false} PushSegment(ups: seq<string>, target: seq<string>, from: nat, i: nat)
    requires from <= i < |target|
    ensures ups + target[from..i] + [target[i]] == ups + target[from..i + 1]
  {
    assert target[from..i] + [target[i]] == target[from..i + 1];
  }

  /** Mirrors the two pushing loops of the code. */
  method RelativeBrowserParts(fromSegments: seq<string>, toSegments: seq<string>) returns (parts: seq<string>)
    ensures parts == LinkSegments(RelativeParts(DirectoryOf(fromSegments), toSegments))
  {
    var dirLen := if |fromSegments| == 0 then 0 else |fromSegments| - 1;
    var dir := fromSegments[..dirLen];
    assert dir == DirectoryOf(fromSegments);
    var common := CommonLength(dir, toSegments);
    parts := [];
    for i := common to dirLen
      invariant parts == Ups(i - common)
    {
      UpsSnoc(i - common);
      parts := parts + [".."];
    }
    assert parts == Ups(dirLen - common) + toSegments[common..common];
    for i := common to |toSegments|
      invariant parts == Ups(dirLen - common) + toSegments[common..i]
    {
      PushSegment(Ups(dirLen - common), toSegments, common, i);
      parts := parts + [toSegments[i]];
    }
    assert toSegments[common..|toSegments|] == toSegments[common..] && parts == RelativeParts(dir, toSegments);
    if |parts| == 0 {
      parts := ["."];
    }
  }

  // ---------------------------------------------------------------- the link resolves to its target

  lemma {:induction false} FollowAppend(dir: seq<string>, a: seq<string>, b: seq<string>)
    ensures Follow(dir, a + b) == Follow(Follow(dir, a), b)
    decreases |a|
  {
    if a == [] {
      assert a + b == b;
    } else {
      assert (a + b)[1..] == a[1..] + b;
      var s := a[0];
      FollowAppend(if s == "." then dir else if s == ".." then DirectoryOf(dir) else dir + [s], a[1..], b);
    }
  }

  lemma {:induction false} FollowUps(dir: seq<string>, n: nat)
    requires n <= |dir|
    ensures Follow(dir, Ups(n)) == dir[..|dir| - n]
  {
    if n > 0 {
      assert Ups(n)[1..] == Ups(n - 1);
      FollowUps(DirectoryOf(dir), n - 1);
      assert DirectoryOf(dir)[..|dir| - n] == dir[..|dir| - n];
    } else {
      assert dir[..|dir|] == dir;
    }
  }

  lemma {:induction false} FollowParts(dir: seq<string>, parts: seq<string>)
    requires forall i | 0 <= i < |parts| :: parts[i] != "." && parts[i] != ".."
    ensures Follow(dir, parts) == dir + parts
    decreases |parts|
  {
    if parts != [] {
      FollowParts(dir + [parts[0]], parts[1..]);
      assert dir + parts == dir + [parts[0]] + parts[1..];
    }
  }

  /** Following the link from the page's directory arrives at exactly the target's segments. */
  lemma {:induction false} LinkReachesTarget(dir: seq<string>, target: seq<string>)
    requires Names(target)
    ensures Follow(dir, LinkSegments(RelativeParts(dir, target))) == target
  {
    PathReachesTarget(dir, target);
    assert Follow(dir, ["."]) == dir;
  }

  /** The same holds for the command line's variant, which prints no "." for the directory itself. */
  lemma {:induction false} PathReachesTarget(dir: seq<string>, target: seq<string>)
    requires Names(target)
    ensures Follow(dir, RelativeParts(dir, target)) == target
  {
    var n := CommonLength(dir, target);
    var kept, rest := target[..n], target[n..];
    FollowAppend(dir, Ups(|dir| - n), rest);
    FollowUps(dir, |dir| - n);
    assert forall i | 0 <= i < |rest| :: rest[i] == target[n + i];
    FollowParts(kept, rest);
    assert target == kept + rest;
  }

  /** How far apart two directories are in the tree. */
  function Distance(a: seq<string>, b: seq<string>): nat {
    |a| + |b| - 2 * CommonLength(a, b)
  }

  lemma {:induction false} CommonLengthIsMaximal(a: seq<string>, b: seq<string>, k: nat)
    requires k <= |a| && k <= |b| && a[..k] == b[..k]
    ensures k <= CommonLength(a, b)
    decreases k
  {
    if k > 0 {
      assert a[0] == a[..k][0] == b[..k][0] == b[0];
      assert a[1..][..k - 1] == a[..k][1..] && b[1..][..k - 1] == b[..k][1..];
      CommonLengthIsMaximal(a[1..], b[1..], k - 1);
    }
  }

  lemma {:induction false} DownwardStep(dir: seq<string>, s: string, target: seq<string>)
    ensures Distance(dir, target) <= Distance(dir + [s], target) + 1
  {
    var next := dir + [s];
    var n := CommonLength(next, target);
    if n <= |dir| {
      assert next[..n] == dir[..n];
      CommonLengthIsMaximal(dir, target, n);
    } else {
      assert dir == next[..n][..|dir|] == target[..n][..|dir|] == target[..|dir|];
      CommonLengthIsMaximal(dir, target, |dir|);
    }
  }

  lemma {:induction false} UpwardStep(dir: seq<string>, target: seq<string>)
    ensures Distance(dir, target) <= Distance(DirectoryOf(dir), target) + 1
  {
    var up := DirectoryOf(dir);
    var n := CommonLength(up, target);
    assert up[..n] == dir[..n];
    CommonLengthIsMaximal(dir, target, n);
  }

  /** Every step of a reference changes the distance by at most one. */
  lemma {:induction false} ReferenceCoversDistance(dir: seq<string>, reference: seq<string>, target: seq<string>)
    requires Follow(dir, reference) == target
    ensures |reference| >= Distance(dir, target)
    decreases |reference|
  {
    if reference == [] {
      CommonLengthIsMaximal(dir, target, |dir|);
    } else {
      var s := reference[0];
      if s == "." {
        ReferenceCoversDistance(dir, reference[1..], target);
      } else if s == ".." {
        ReferenceCoversDistance(DirectoryOf(dir), reference[1..], target);
        UpwardStep(dir, target);
      } else {
        ReferenceCoversDistance(dir + [s], reference[1..], target);
        DownwardStep(dir, s, target);
      }
    }
  }

  /** No reference with at least one segment that reaches the target has fewer segments than the link. */
  lemma {:induction false} LinkIsShortest(dir: seq<string>, target: seq<string>, reference: seq<string>)
    requires reference != [] && Follow(dir, reference) == target
    ensures |LinkSegments(RelativeParts(dir, target))| <= |reference|
  {
    ReferenceCoversDistance(dir, reference, target);
  }

  // ---------------------------------------------------------------- paths as strings

  function RelativeBrowserPath(fromPath: string, toPath: string): string {
    Join(LinkSegments(RelativeParts(DirectoryOf(PathSegments(fromPath)), PathSegments(toPath))), "/")
  }

  predicate IsDelimiter(c: char) {
    c == '?' || c == '#'
  }

  ghost predicate Plain(s: string) {
    forall i | 0 <= i < |s| :: !IsDelimiter(s[i])
  }

  ghost predicate AllPlain(parts: seq<string>) {
    forall i | 0 <= i < |parts| :: Plain(parts[i])
  }

  /** The path of a reference: what stands before its query and its fragment (section 4.1). */
  function PathPart(reference: string): string {
    if reference == "" || IsDelimiter(reference[0]) then "" else [reference[0]] + PathPart(reference[1..])
  }

  /** The path at which a page is served: absolute, without query and fragment. */
  ghost predicate IsPagePath(path: string) {
    path != "" && path[0] == '/' && Plain(path)
  }

  /** The parts of an absolute path after its leading slash, empty ones included. */
  function RawParts(path: string): (r: seq<string>)
    requires path != "" && path[0] == '/'
    ensures r != []
  {
    SplitSlash(path[1..])
  }

  /**
   The segments at which a browser arrives from page `fromPath`, for a reference without leading slash. A colon in the
   first segment makes it no relative path (section 4.2); without a path the page's own path stands (section 5.2.2);
   else it is merged with the page's path up to the last slash and dot segments are removed from the whole.
   */
  function Resolve(fromPath: string, reference: string): Option<seq<string>>
    requires fromPath != "" && fromPath[0] == '/'
  {
    var raw, path := RawParts(fromPath), PathPart(reference);
    if ':' in SplitSlash(path)[0] then None
    else if path == "" then Some(NonEmpty(raw))
    else Some(NonEmpty(Follow([], raw[..|raw| - 1] + SplitSlash(path))))
  }

  lemma {:induction false} PartsHaveNoSlash(s: string)
    ensures forall p | p in SplitSlash(s) :: '/' !in p
  {
    if s != "" {
      PartsHaveNoSlash(s[1..]);
      var rest := SplitSlash(s[1..]);
      forall p | p in SplitSlash(s) ensures '/' !in p {
        if p !in rest && p != "" {
          assert p == [s[0]] + rest[0];
          assert rest[0] in rest;
        }
      }
    }
  }

  lemma {:induction false} SplitFirst(part: string, rest: string)
    requires '/' !in part
    ensures SplitSlash(part) == [part] && SplitSlash(part + "/" + rest) == [part] + SplitSlash(rest)
  {
    var s := part + "/" + rest;
    if part == "" {
      assert s[1..] == rest;
    } else {
      SplitFirst(part[1..], rest);
      assert s[1..] == part[1..] + "/" + rest;
      assert [part[0]] + part[1..] == part;
    }
  }

  lemma {:induction false} SplitOfJoin(parts: seq<string>)
    requires parts != [] && forall p | p in parts :: '/' !in p
    ensures SplitSlash(Join(parts, "/")) == parts
    decreases |parts|
  {
    SplitFirst(parts[0], Join(parts[1..], "/"));
    if |parts| > 1 {
      SplitOfJoin(parts[1..]);
    }
  }

  lemma {:induction false} NonEmptyAppend(a: seq<string>, b: seq<string>)
    ensures NonEmpty(a + b) == NonEmpty(a) + NonEmpty(b)
    decreases |a|
  {
    if a == [] {
      assert a + b == b;
    } else {
      assert (a + b)[1..] == a[1..] + b;
      NonEmptyAppend(a[1..], b);
    }
  }

  lemma {:induction false} NonEmptyCounts(parts: seq<string>)
    ensures |NonEmpty(parts)| <= |parts|
    ensures |NonEmpty(parts)| == |parts| <==> "" !in parts
    ensures "" !in parts ==> NonEmpty(parts) == parts
    decreases |parts|
  {
    if parts != [] {
      NonEmptyCounts(parts[1..]);
      assert parts == [parts[0]] + parts[1..];
    }
  }

  /** How many directories the link climbs. */
  function Climbs(dir: seq<string>, target: seq<string>): nat {
    |dir| - CommonLength(dir, target)
  }

  /** No part from the k-th on is empty. */
  ghost predicate NamedFrom(parts: seq<string>, k: int) {
    forall i | 0 <= i < |parts| && k <= i :: parts[i] != ""
  }

  /** No part before the last is a dot segment. */
  ghost predicate NoDots(raw: seq<string>) {
    forall i | 0 <= i < |raw| - 1 :: raw[i] != "." && raw[i] != ".."
  }

  /** The last part of the page's path and the directories the link climbs through are all non-empty. */
  ghost predicate ClimbsThroughNames(raw: seq<string>, dir: seq<string>, target: seq<string>) {
    NamedFrom(raw, |raw| - 1 - Climbs(dir, target))
  }

  /** The directory a page stands in: the parts before the last, dot segments removed. */
  function Stands(raw: seq<string>): seq<string>
    requires raw != []
  {
    Follow([], raw[..|raw| - 1])
  }

  /** Climbing from where the page stands leads to the directory that the link takes for common with the target. */
  ghost predicate ClimbsToCommon(raw: seq<string>, dir: seq<string>, target: seq<string>)
    requires raw != []
  {
    NonEmpty(Follow(Stands(raw), Ups(Climbs(dir, target)))) == target[..CommonLength(dir, target)]
  }

  function LastName(last: string): seq<string> {
    if last == "" then [] else [last]
  }

  lemma {:induction false} NonEmptyLast(parts: seq<string>)
    requires parts != []
    ensures NonEmpty(parts) == NonEmpty(parts[..|parts| - 1]) + LastName(parts[|parts| - 1])
  {
    var base, last := parts[..|parts| - 1], parts[|parts| - 1];
    NonEmptyAppend(base, [last]);
    assert base + [last] == parts && [last][1..] == [];
    assert NonEmpty([last]) == LastName(last);
  }

  lemma {:induction false} SegmentsOfRaw(path: string)
    requires path != "" && path[0] == '/'
    ensures PathSegments(path) == NonEmpty(RawParts(path))
    ensures var raw := RawParts(path); var last := raw[|raw| - 1];
      NonEmpty(raw) == NonEmpty(raw[..|raw| - 1]) + LastName(last)
  {
    var raw := RawParts(path);
    assert NonEmpty([""] + raw) == NonEmpty(raw) by {
      assert ([""] + raw)[1..] == raw;
    }
    NonEmptyLast(raw);
  }

  /** The segments of the link from a page in directory `dir`. */
  function LinkFor(dir: seq<string>, target: seq<string>): (r: seq<string>)
    ensures r != []
  {
    LinkSegments(RelativeParts(dir, target))
  }

  /** The link splits into exactly the segments pushed, none of them empty. */
  lemma {:induction false} LinkSplits(fromPath: string, toPath: string)
    ensures var parts := LinkFor(DirectoryOf(PathSegments(fromPath)), PathSegments(toPath));
      && SplitSlash(RelativeBrowserPath(fromPath, toPath)) == parts
      && (forall p | p in parts :: p == ".." || p == "." || p in PathSegments(toPath))
      && "" !in parts
  {
    var target := PathSegments(toPath);
    PartsHaveNoSlash(toPath);
    NonEmptySelects(SplitSlash(toPath));
    LinkIsMade(DirectoryOf(PathSegments(fromPath)), target);
    SplitOfJoin(LinkFor(DirectoryOf(PathSegments(fromPath)), target));
  }

  lemma {:induction false} LinkIsMade(dir: seq<string>, target: seq<string>)
    ensures forall p | p in LinkFor(dir, target) :: p == ".." || p == "." || p in target
  {
    var n := CommonLength(dir, target);
    assert forall p | p in target[n..] :: p in target;
  }

  /** What following the link from directory `stand` keeps and adds. */
  lemma {:induction false} FollowFrom(stand: seq<string>, c: nat, u: nat, target: seq<string>)
    requires c <= |target| && Names(target)
    ensures Follow(stand, LinkSegments(Ups(u) + target[c..])) == Follow(stand, Ups(u)) + target[c..]
  {
    assert Follow(stand, ["."]) == stand;
    FollowAppend(stand, Ups(u), target[c..]);
    FollowParts(Follow(stand, Ups(u)), target[c..]);
  }

  /** The link arrives exactly when the climb ends in the common directory. */
  lemma {:induction false} FollowedIff(stand: seq<string>, c: nat, u: nat, target: seq<string>)
    requires c <= |target| && Names(target)
    ensures NonEmpty(Follow(stand, LinkSegments(Ups(u) + target[c..]))) == target
      <==> NonEmpty(Follow(stand, Ups(u))) == target[..c]
  {
    var kept := Follow(stand, Ups(u));
    FollowFrom(stand, c, u, target);
    NonEmptyAppend(kept, target[c..]);
    NonEmptyCounts(target[c..]);
    SuffixIff(NonEmpty(kept), target, c);
  }

  lemma {:induction false} SuffixIff(kept: seq<string>, target: seq<string>, c: nat)
    requires c <= |target|
    ensures kept + target[c..] == target <==> kept == target[..c]
  {
    assert target[..c] + target[c..] == target;
    assert |kept + target[c..]| == |kept| + |target| - c;
    assert kept + target[c..] == target ==> kept == (kept + target[c..])[..|kept|];
  }

  /** The path has no names at all, or its last part and the `u` directories before it are names. */
  ghost predicate ClimbsOnlyNames(base: seq<string>, last: string, u: nat)
    requires u <= |base|
  {
    (NonEmpty(base) == [] && last == "") || (last != "" && NamedFrom(base, |base| - u))
  }

  /** The names kept after climbing are those of the common part exactly when only names were climbed through. */
  lemma {:induction false} KeptIff(base: seq<string>, last: string, dir: seq<string>, c: nat)
    requires dir == DirectoryOf(NonEmpty(base) + LastName(last))
    requires c <= |dir|
    ensures |dir| <= |NonEmpty(base)| <= |base|
    ensures var u := |dir| - c; var kept := NonEmpty(base[..|base| - u]);
      && |kept| >= c
      && (|kept| == c <==> ClimbsOnlyNames(base, last, u))
      && (|kept| == c ==> kept == dir[..c])
  {
    NonEmptyCounts(base);
    var u := |dir| - c;
    NonEmptyAppend(base[..|base| - u], base[|base| - u..]);
    assert base == base[..|base| - u] + base[|base| - u..];
    NonEmptyCounts(base[|base| - u..]);
    assert forall i | |base| - u <= i < |base| :: base[|base| - u..][i - (|base| - u)] == base[i];
    if last != "" {
      assert dir == NonEmpty(base);
    }
  }

  // ---------------------------------------------------------------- queries and fragments

  lemma {:induction false} PathPartIsPlain(reference: string)
    ensures Plain(PathPart(reference))
    ensures Plain(reference) ==> PathPart(reference) == reference
  {
    if reference != "" && !IsDelimiter(reference[0]) {
      PathPartIsPlain(reference[1..]);
      if Plain(reference) {
        assert forall i | 0 <= i < |reference[1..]| :: reference[1..][i] == reference[i + 1];
        assert reference == [reference[0]] + reference[1..];
      }
    }
  }

  lemma {:induction false} SplitIsPlain(s: string)
    requires Plain(s)
    ensures AllPlain(SplitSlash(s))
  {
    if s != "" {
      assert forall i | 0 <= i < |s[1..]| :: s[1..][i] == s[i + 1];
      SplitIsPlain(s[1..]);
      assert Plain([s[0]] + SplitSlash(s[1..])[0]);
    }
  }

  lemma {:induction false} JoinIsPlain(parts: seq<string>)
    requires AllPlain(parts)
    ensures Plain(Join(parts, "/"))
    decreases |parts|
  {
    if |parts| > 1 {
      JoinIsPlain(parts[1..]);
    }
  }

  lemma {:induction false} FollowIsPlain(dir: seq<string>, reference: seq<string>)
    requires AllPlain(dir) && AllPlain(reference)
    ensures AllPlain(Follow(dir, reference))
    decreases |reference|
  {
    if reference != [] {
      var s := reference[0];
      FollowIsPlain(if s == "." then dir else if s == ".." then DirectoryOf(dir) else dir + [s], reference[1..]);
    }
  }

  lemma {:induction false} NonEmptyIsPlain(parts: seq<string>)
    requires AllPlain(parts)
    ensures AllPlain(NonEmpty(parts))
    decreases |parts|
  {
    if parts != [] {
      NonEmptyIsPlain(parts[1..]);
    }
  }

  /** A browser never arrives at a segment that holds a query or fragment delimiter. */
  lemma {:induction false} ResolvedIsPlain(fromPath: string, reference: string)
    requires IsPagePath(fromPath)
    ensures Resolve(fromPath, reference).Some? ==> AllPlain(Resolve(fromPath, reference).value)
  {
    var raw, path := RawParts(fromPath), PathPart(reference);
    SplitIsPlain(fromPath[1..]);
    NonEmptyIsPlain(raw);
    PathPartIsPlain(reference);
    SplitIsPlain(path);
    FollowIsPlain([], raw[..|raw| - 1] + SplitSlash(path));
    NonEmptyIsPlain(Follow([], raw[..|raw| - 1] + SplitSlash(path)));
  }

  // ---------------------------------------------------------------- when the link is right

  /** The link climbs nothing and goes on, with a segment that holds a colon. */
  predicate ColonFirst(dir: seq<string>, target: seq<string>) {
    var common := CommonLength(dir, target);
    Climbs(dir, target) == 0 && common < |target| && ':' in target[common]
  }

  lemma {:induction false} ColonFirstIff(dir: seq<string>, target: seq<string>)
    ensures ':' in LinkFor(dir, target)[0] <==> ColonFirst(dir, target)
  {
    var climbs, common := Climbs(dir, target), CommonLength(dir, target);
    if climbs > 0 {
      assert LinkFor(dir, target)[0] == Ups(climbs)[0];
    } else {
      assert Ups(0) + target[common..] == target[common..];
    }
  }

  /** Where following the link from the page's parts `raw` arrives. */
  function Arrives(raw: seq<string>, dir: seq<string>, target: seq<string>): seq<string>
    requires raw != []
  {
    NonEmpty(Follow(Stands(raw), LinkFor(dir, target)))
  }

  lemma {:induction false} ResolveFollowsLink(fromPath: string, toPath: string)
    requires fromPath != "" && fromPath[0] == '/' && AllPlain(PathSegments(toPath))
    ensures var dir, target := DirectoryOf(PathSegments(fromPath)), PathSegments(toPath);
      Resolve(fromPath, RelativeBrowserPath(fromPath, toPath))
      == if ColonFirst(dir, target) then None
         else Some(Arrives(RawParts(fromPath), dir, target))
  {
    var link, raw := RelativeBrowserPath(fromPath, toPath), RawParts(fromPath);
    var dir, target := DirectoryOf(PathSegments(fromPath)), PathSegments(toPath);
    LinkSplits(fromPath, toPath);
    SegmentsArePlain(dir, target);
    JoinIsPlain(LinkFor(dir, target));
    PathPartIsPlain(link);
    assert LinkFor(dir, target)[0] in LinkFor(dir, target);
    ColonFirstIff(dir, target);
    FollowAppend([], raw[..|raw| - 1], LinkFor(dir, target));
  }

  lemma {:induction false} SegmentsArePlain(dir: seq<string>, target: seq<string>)
    requires AllPlain(target)
    ensures AllPlain(LinkSegments(RelativeParts(dir, target)))
  {
    var n := CommonLength(dir, target);
    var ups, rest := Ups(|dir| - n), target[n..];
    assert forall i | 0 <= i < |rest| :: rest[i] == target[n + i];
    assert Plain("..") && Plain(".");
  }

  /**
   The link on page `fromPath` leads to exactly the segments of `toPath` if and only if these are no dot segments and
   hold no query or fragment delimiter, the link does not start with a segment that holds a colon, and climbing from
   where the page stands leads to the common directory. On a page without dot segments the last is so if and only if
   `fromPath` has no segments at all, or ends in a named part and names every directory the link climbs through.
   */
  lemma {:induction false} LinkResolvesIff(fromPath: string, toPath: string)
    requires IsPagePath(fromPath)
    ensures var raw, dir, target := RawParts(fromPath), DirectoryOf(PathSegments(fromPath)), PathSegments(toPath);
      && (Resolve(fromPath, RelativeBrowserPath(fromPath, toPath)) == Some(target)
          <==> Names(target) && AllPlain(target) && !ColonFirst(dir, target) && ClimbsToCommon(raw, dir, target))
      && (NoDots(raw) ==>
          (ClimbsToCommon(raw, dir, target) <==> PathSegments(fromPath) == [] || ClimbsThroughNames(raw, dir, target)))
  {
    if !AllPlain(PathSegments(toPath)) {
      ResolvedIsPlain(fromPath, RelativeBrowserPath(fromPath, toPath));
    } else if Names(PathSegments(toPath)) {
      PlainTargetIff(fromPath, toPath);
    } else {
      ResolveFollowsLink(fromPath, toPath);
      ArrivesAtNames(RawParts(fromPath), DirectoryOf(PathSegments(fromPath)), PathSegments(toPath));
    }
    if NoDots(RawParts(fromPath)) {
      SegmentsOfRaw(fromPath);
      WithoutDotsIff(RawParts(fromPath), PathSegments(fromPath), PathSegments(toPath));
    }
  }

  lemma {:induction false} ArrivesIff(raw: seq<string>, dir: seq<string>, target: seq<string>)
    requires raw != [] && Names(target)
    ensures Arrives(raw, dir, target) == target <==> ClimbsToCommon(raw, dir, target)
  {
    FollowedIff(Stands(raw), CommonLength(dir, target), Climbs(dir, target), target);
  }

  lemma {:induction false} ArrivesAtNames(raw: seq<string>, dir: seq<string>, target: seq<string>)
    requires raw != []
    ensures Names(Arrives(raw, dir, target))
  {
    FollowLeavesNoDots([], raw[..|raw| - 1]);
    FollowLeavesNoDots(Stands(raw), LinkFor(dir, target));
    NonEmptySelects(Follow(Stands(raw), LinkFor(dir, target)));
    assert forall i | 0 <= i < |Arrives(raw, dir, target)| :: Arrives(raw, dir, target)[i] in Arrives(raw, dir, target);
  }

  lemma {:induction false} FollowLeavesNoDots(dir: seq<string>, reference: seq<string>)
    requires "." !in dir && ".." !in dir
    ensures "." !in Follow(dir, reference) && ".." !in Follow(dir, reference)
    decreases |reference|
  {
    if reference != [] {
      var s := reference[0];
      FollowLeavesNoDots(if s == "." then dir else if s == ".." then DirectoryOf(dir) else dir + [s], reference[1..]);
    }
  }

  lemma {:induction false} PlainTargetIff(fromPath: string, toPath: string)
    requires fromPath != "" && fromPath[0] == '/' && Names(PathSegments(toPath)) && AllPlain(PathSegments(toPath))
    ensures var raw, dir, target := RawParts(fromPath), DirectoryOf(PathSegments(fromPath)), PathSegments(toPath);
      Resolve(fromPath, RelativeBrowserPath(fromPath, toPath)) == Some(target)
      <==> !ColonFirst(dir, target) && ClimbsToCommon(raw, dir, target)
  {
    var dir, target := DirectoryOf(PathSegments(fromPath)), PathSegments(toPath);
    ResolveFollowsLink(fromPath, toPath);
    ArrivesIff(RawParts(fromPath), dir, target);
  }

  lemma {:induction false} WithoutDotsIff(raw: seq<string>, segments: seq<string>, target: seq<string>)
    requires raw != [] && NoDots(raw) && segments == NonEmpty(raw[..|raw| - 1]) + LastName(raw[|raw| - 1])
    ensures var dir := DirectoryOf(segments);
      ClimbsToCommon(raw, dir, target) <==> segments == [] || ClimbsThroughNames(raw, dir, target)
  {
    var dir := DirectoryOf(segments);
    NamedIff(raw[..|raw| - 1], raw[|raw| - 1], dir, target, CommonLength(dir, target));
    StandsWithoutDots(raw);
    OnlyNamesIff(raw, segments, Climbs(dir, target));
  }

  lemma {:induction false} StandsWithoutDots(raw: seq<string>)
    requires raw != [] && NoDots(raw)
    ensures Stands(raw) == raw[..|raw| - 1]
  {
    var base := raw[..|raw| - 1];
    FollowParts([], base);
    assert [] + base == base;
  }

  lemma {:induction false} OnlyNamesIff(raw: seq<string>, segments: seq<string>, climbs: nat)
    requires raw != [] && segments == NonEmpty(raw[..|raw| - 1]) + LastName(raw[|raw| - 1]) && climbs < |raw|
    ensures ClimbsOnlyNames(raw[..|raw| - 1], raw[|raw| - 1], climbs)
      <==> segments == [] || NamedFrom(raw, |raw| - 1 - climbs)
  {
    var base, last := LastPart(raw);
    NamedFromSnoc(base, last, |base| - climbs);
  }

  /** The same with the common length as a parameter. */
  lemma {:induction false} NamedIff(base: seq<string>, last: string, dir: seq<string>, target: seq<string>, c: nat)
    requires dir == DirectoryOf(NonEmpty(base) + LastName(last))
    requires c <= |dir| && c <= |target| && dir[..c] == target[..c]
    ensures |dir| <= |base|
    ensures NonEmpty(Follow(base, Ups(|dir| - c))) == target[..c]
      <==> ClimbsOnlyNames(base, last, |dir| - c)
  {
    KeptIff(base, last, dir, c);
    var kept := base[..|base| - (|dir| - c)];
    FollowUps(base, |dir| - c);
    assert NonEmpty(kept) == dir[..c] <==> |NonEmpty(kept)| == c;
  }

  lemma {:induction false} LastPart(parts: seq<string>) returns (base: seq<string>, last: string)
    requires parts != []
    ensures parts == base + [last] && base == parts[..|parts| - 1] && last == parts[|parts| - 1]
  {
    base, last := parts[..|parts| - 1], parts[|parts| - 1];
  }

  lemma {:induction false} NamedFromSnoc(base: seq<string>, last: string, k: int)
    requires k <= |base|
    ensures NamedFrom(base + [last], k) <==> last != "" && NamedFrom(base, k)
  {
    var parts := base + [last];
    assert parts[|base|] == last && forall i | 0 <= i < |base| :: parts[i] == base[i];
  }

  /** In particular the link is right on every page whose path is its segments, each after one slash. */
  lemma {:induction false} LinkResolvesFromPlainPath(segments: seq<string>, toPath: string)
    requires segments != [] && AllPlain(segments) && Names(segments) && forall s | s in segments :: '/' !in s
    requires Names(PathSegments(toPath)) && AllPlain(PathSegments(toPath))
    requires forall s | s in PathSegments(toPath) :: ':' !in s
    ensures var fromPath := "/" + Join(segments, "/");
      Resolve(fromPath, RelativeBrowserPath(fromPath, toPath)) == Some(PathSegments(toPath))
  {
    var fromPath := "/" + Join(segments, "/");
    PartsOfPlainPath(segments);
    SegmentsOfRaw(fromPath);
    WithoutDotsIff(segments, PathSegments(fromPath), PathSegments(toPath));
    assert forall i | 0 <= i < |segments| :: segments[i] != "";
    PlainTargetIff(fromPath, toPath);
  }

  lemma {:induction false} PartsOfPlainPath(segments: seq<string>)
    requires segments != [] && forall s | s in segments :: '/' !in s
    ensures RawParts("/" + Join(segments, "/")) == segments
  {
    var fromPath := "/" + Join(segments, "/");
    assert fromPath[1..] == Join(segments, "/");
    SplitOfJoin(segments);
  }

  /** On every page served with a trailing slash and without dot segments, except the root, every link is wrong. */
  lemma {:induction false} TrailingSlashMisleads(fromPath: string, toPath: string)
    requires IsPagePath(fromPath) && |fromPath| > 1 && fromPath[|fromPath| - 1] == '/' && PathSegments(fromPath) != []
    requires NoDots(RawParts(fromPath))
    ensures Resolve(fromPath, RelativeBrowserPath(fromPath, toPath)) != Some(PathSegments(toPath))
  {
    LastPartOfSlash(fromPath[1..]);
    LinkResolvesIff(fromPath, toPath);
  }

  lemma {:induction false} LastPartOfSlash(s: string)
    requires s != "" && s[|s| - 1] == '/'
    ensures var parts := SplitSlash(s); parts[|parts| - 1] == "" && |parts| > 1
  {
    if |s| > 1 {
      LastPartOfSlash(s[1..]);
    } else {
      assert s == "/" && s[1..] == "";
    }
  }

  /** The link from "/docs" to a path that is not percent-encoded: the browser takes "b" for the query. */
  lemma {:induction false} QueryMisleads()
    ensures Resolve("/docs", RelativeBrowserPath("/docs", "/a?b")) != Some(PathSegments("/a?b"))
  {
    SplitFirst("a?b", "");
    assert "/a?b"[1..] == "a?b" && SplitSlash("/a?b") == [""] + ["a?b"];
    assert [""] + ["a?b"] == ["", "a?b"] && ["", "a?b"][1..] == ["a?b"];
    assert NonEmpty(["a?b"]) == ["a?b"] + [];
    assert PathSegments("/a?b") == ["a?b"];
    assert IsDelimiter("a?b"[1]) && !Plain(["a?b"][0]);
    LinkResolvesIff("/docs", "/a?b");
  }

  lemma {:induction false} SegmentsOfNames(names: seq<string>)
    requires names != [] && "" !in names && forall s | s in names :: '/' !in s
    ensures RawParts("/" + Join(names, "/")) == names && PathSegments("/" + Join(names, "/")) == names
  {
    PartsOfPlainPath(names);
    SegmentsOfRaw("/" + Join(names, "/"));
    NonEmptyCounts(names);
  }

  /** The code takes dot segments of a page for directories: from "/a/../last" its link to "/a/b" leads to "/b". */
  lemma {:induction false} DotSegmentsMislead(a: string, b: string, last: string)
    requires Names([a, b]) && AllPlain([a, b]) && last != "" && '/' !in a && '/' !in b && '/' !in last
    ensures var page, path := "/" + Join([a, "..", last], "/"), "/" + Join([a, b], "/");
      PathSegments(path) == [a, b] && Resolve(page, RelativeBrowserPath(page, path)) == Some([b])
  {
    assert IsName([a, b][0]) && IsName([a, b][1]);
    SegmentsOfNames([a, "..", last]);
    SegmentsOfNames([a, b]);
    var page, path := "/" + Join([a, "..", last], "/"), "/" + Join([a, b], "/");
    ClimbsPastDots(a, b, last);
    ResolveFollowsLink(page, path);
  }

  /** And dot segments can hide that a page has no segments: on "/./" the link to "/a" is right, slash and all. */
  lemma {:induction false} SlashAfterDot(a: string)
    requires IsName(a) && Plain(a) && '/' !in a && ':' !in a
    ensures var path := "/" + Join([a], "/");
      PathSegments(path) == [a] && Resolve("/./", RelativeBrowserPath("/./", path)) == Some([a])
  {
    SplitFirst(".", "");
    assert "/./"[1..] == "." + "/" + "" && [".", ""][1..] == [""];
    assert RawParts("/./") == [".", ""];
    SegmentsOfRaw("/./");
    SegmentsOfNames([a]);
    assert Names([a]) && AllPlain([a]);
    StaysInRoot(a);
    PlainTargetIff("/./", "/" + Join([a], "/"));
  }

  lemma {:induction false} StaysInRoot(a: string)
    requires ':' !in a
    ensures var dir := DirectoryOf(NonEmpty([".", ""]));
      !ColonFirst(dir, [a]) && ClimbsToCommon([".", ""], dir, [a])
  {
    assert NonEmpty([".", ""]) == ["."] && DirectoryOf(["."]) == [];
    assert Climbs([], [a]) == 0 && Ups(0) == [];
    assert [".", ""][..1] == ["."] && Follow([], ["."]) == [];
  }

  lemma {:induction false} ClimbsPastDots(a: string, b: string, last: string)
    requires IsName(a) && IsName(b)
    ensures var dir := DirectoryOf([a, "..", last]);
      CommonLength(dir, [a, b]) == 1 && LinkSegments(RelativeParts(dir, [a, b])) == ["..", b]
    ensures NonEmpty(Follow(Stands([a, "..", last]), ["..", b])) == [b]
  {
    assert [a, "..", last][..2] == [a, ".."] && [a, ".."][1..] == [".."] && [a, b][1..] == [b];
    assert Follow([], [a, ".."]) == Follow([a], [".."]) == [];
    assert ["..", b][1..] == [b] && Follow([], ["..", b]) == Follow([], [b]) == [b];
  }
}
