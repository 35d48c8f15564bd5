/** Tree URLs of skills and the repositories they are counted under
    (backend/app/api/skills_marketplace.py), with the parts of
    `urllib.parse.urlparse` that they go through. */
module TreeUrl {
  import opened Prelude

  // ---- strings ---------------------------------------------------------------

  predicate OccursAt(s: string, p: string, i: nat) {
    i + |p| <= |s| && s[i..i + |p|] == p
  }

  /** `s.find(p, from)`. */
  function Find(s: string, p: string, from: nat): (r: int)
    ensures r == -1 || (r >= from && OccursAt(s, p, r))
    ensures forall i :: from <= i < (if r == -1 then |s| + 1 else r) ==> !OccursAt(s, p, i)
    decreases |s| + 1 - from
  {
    if from > |s| then -1
    else if OccursAt(s, p, from) then from
    else Find(s, p, from + 1)
  }

  predicate Contains(s: string, p: string) {
    exists i :: 0 <= i <= |s| && OccursAt(s, p, i)
  }

  predicate EndsWith(s: string, p: string) {
    |p| <= |s| && s[|s| - |p|..] == p
  }

  /** The text before the first occurrence of a character. */
  function Before(s: string, c: char): string {
    var i := Find(s, [c], 0);
    if i == -1 then s else s[..i]
  }

  function LStrip(s: string, drop: char -> bool): string {
    if s != [] && drop(s[0]) then LStrip(s[1..], drop) else s
  }

  function RStrip(s: string, drop: char -> bool): (r: string)
    ensures |r| <= |s| && r == s[..|r|]
    ensures r != [] ==> !drop(r[|r| - 1])
  {
    if s != [] && drop(s[|s| - 1]) then RStrip(s[..|s| - 1], drop) else s
  }

  function Strip(s: string): string {
    RStrip(LStrip(s, IsSpace), IsSpace)
  }

  predicate IsSlash(c: char) {
    c == '/'
  }

  // ---- the URL functions ---------------------------------------------------------

  function NormalizeRepo(url: string): string {
    var normalized := RStrip(Strip(url), IsSlash);
    if EndsWith(normalized, ".git") then normalized[..|normalized| - 4] else normalized
  }

  const MARKER: string := "/tree/"

  function ToTree(repo: string, branch: string, path: string): string {
    var url := NormalizeRepo(repo);
    var safeBranch := if Strip(branch) == "" then "main" else Strip(branch);
    var rel := LStrip(Strip(path), IsSlash);
    if rel == "" then url + MARKER + safeBranch else url + MARKER + safeBranch + "/" + rel
  }

  datatype Url = Url(scheme: string, netloc: string, path: string)

  predicate IsLetter(c: char) {
    'a' <= c <= 'z' || 'A' <= c <= 'Z'
  }

  predicate IsSchemeChar(c: char) {
    IsLetter(c) || '0' <= c <= '9' || c == '+' || c == '-' || c == '.'
  }

  function Lower(s: string): string {
    seq(|s|, i requires 0 <= i < |s| => if 'A' <= s[i] <= 'Z' then (s[i] as int + 32) as char else s[i])
  }

  predicate IsRemoved(c: char) {
    c == '\t' || c == '\r' || c == '\n'
  }

  predicate IsKept(c: char) {
    !IsRemoved(c)
  }

  predicate IsControl(c: char) {
    c <= ' '
  }

  /** Leading controls and blanks are dropped, tabs and line ends everywhere. */
  function Clean(url: string): string {
    Filter(IsKept, LStrip(url, IsControl))
  }

  const PARAM_SCHEMES: set<string> := {"", "ftp", "hdl", "prospero", "http", "https", "shttp",
                                       "rtsp", "rtsps", "sip", "sips", "mms", "sftp", "tel"}

  predicate IsDelimiter(c: char) {
    c == '/' || c == '?' || c == '#'
  }

  function HostEnd(s: string, from: nat): (r: nat)
    requires from <= |s|
    ensures from <= r <= |s| && (forall i :: from <= i < r ==> !IsDelimiter(s[i])) && (r < |s| ==> IsDelimiter(s[r]))
    decreases |s| - from
  {
    if from < |s| && !IsDelimiter(s[from]) then HostEnd(s, from + 1) else from
  }

  function LastSlash(s: string): (r: int)
    ensures -1 <= r < |s| && (r >= 0 ==> s[r] == '/') && forall i :: r < i < |s| ==> s[i] != '/'
  {
    if s == [] then -1
    else if s[|s| - 1] == '/' then |s| - 1
    else LastSlash(s[..|s| - 1])
  }

  /** Parameters start at the first semicolon of the last segment. */
  function WithoutParams(scheme: string, path: string): string {
    if scheme !in PARAM_SCHEMES then path
    else
      var last := LastSlash(path);
      var i := Find(path, ";", if last == -1 then 0 else last);
      if i == -1 then path else path[..i]
  }

  function SchemeEnd(url: string): int {
    var i := Find(url, ":", 0);
    if i > 0 && IsLetter(url[0]) && forall k :: 0 <= k < i ==> IsSchemeChar(url[k]) then i else -1
  }

  function ParseAfterScheme(scheme: string, rest: string): Url {
    var host := if OccursAt(rest, "//", 0) then HostEnd(rest, 2) else 0;
    var netloc := if OccursAt(rest, "//", 0) then rest[2..host] else "";
    Url(scheme, netloc, WithoutParams(scheme, Before(Before(rest[host..], '#'), '?')))
  }

  function ParseUrl(text: string): Url {
    var url := Clean(text);
    var i := SchemeEnd(url);
    if i == -1 then ParseAfterScheme("", url) else ParseAfterScheme(Lower(url[..i]), url[i + 1..])
  }

  function BaseOfUrl(url: Url): Option<string> {
    var i := Find(url.path, MARKER, 0);
    if i <= 0 then None
    else Some(NormalizeRepo(url.scheme + "://" + url.netloc + url.path[..i]))
  }

  function RepoBase(source: string): Option<string> {
    BaseOfUrl(ParseUrl(source))
  }

  // ---- finding the marker again -----------------------------------------------------

  /** The marker is found in front of its own place only when the path holds
      one already or ends in all of it but the last slash. */
  lemma MarkerPlace(path: string, tail: string)
    ensures var i := Find(path + MARKER + tail, MARKER, 0);
      && 0 <= i <= |path|
      && (i == |path| <==> !Contains(path, MARKER) && !EndsWith(path, "/tree"))
  {
    var s := path + MARKER + tail;
    var i := Find(s, MARKER, 0);
    assert s[|path|..|path| + 6] == MARKER;
    assert OccursAt(s, MARKER, |path|);
    if Contains(path, MARKER) {
      var k :| 0 <= k <= |path| && OccursAt(path, MARKER, k);
      assert s[k..k + 6] == path[k..k + 6];
      assert OccursAt(s, MARKER, k) && k < |path|;
    }
    if EndsWith(path, "/tree") {
      EndMakesMarker(path, tail);
    }
    if i < |path| {
      EarlyMarker(path, tail, i);
    }
  }

  lemma EndMakesMarker(path: string, tail: string)
    requires EndsWith(path, "/tree")
    ensures OccursAt(path + MARKER + tail, MARKER, |path| - 5)
  {
    var s, k := path + MARKER + tail, |path| - 5;
    assert s[k..k + 6] == path[k..] + ['/'];
  }

  lemma EarlyMarker(path: string, tail: string, i: nat)
    requires i < |path| && OccursAt(path + MARKER + tail, MARKER, i)
    ensures Contains(path, MARKER) || EndsWith(path, "/tree")
  {
    var s := path + MARKER + tail;
    if i + 6 <= |path| {
      assert path[i..i + 6] == s[i..i + 6];
      assert OccursAt(path, MARKER, i);
    } else {
      assert s[i..i + 6][|path| - i] == '/';
      assert |path| - i == 5;
      assert path[i..] == s[i..i + 6][..5];
    }
  }

  // ---- parsing a printed URL ----------------------------------------------------------

  lemma {:induction false} FilterConcat(keep: char -> bool, a: string, b: string)
    ensures Filter(keep, a + b) == Filter(keep, a) + Filter(keep, b)
  {
    if b == [] {
      assert a + b == a;
    } else {
      assert (a + b)[..|a + b| - 1] == a + b[..|b| - 1];
      FilterConcat(keep, a, b[..|b| - 1]);
    }
  }

  /** `scheme://host/path` without query, fragment or characters that parsing removes. */
  predicate IsPlain(u: Url) {
    && u.scheme != "" && 'a' <= u.scheme[0] <= 'z'
    && (forall c :: c in u.scheme ==> IsSchemeChar(c) && !('A' <= c <= 'Z'))
    && (forall c :: c in u.netloc ==> !IsDelimiter(c) && ' ' < c < '\U{7f}' && c != '[' && c != ']')
    && (forall c :: c in u.path ==> c != '?' && c != '#' && !IsRemoved(c))
    && (u.path != "" ==> u.path[0] == '/')
  }

  function Printed(u: Url): string {
    u.scheme + "://" + u.netloc + u.path
  }

  lemma PlainIsClean(u: Url, tail: string) returns (rest: string)
    requires IsPlain(u)
    ensures Clean(Printed(u) + MARKER + tail) == Printed(u) + MARKER + rest
  {
    var s := Printed(u) + MARKER;
    rest := Filter(IsKept, tail);
    assert (s + tail)[0] == u.scheme[0];
    assert LStrip(s + tail, IsControl) == s + tail;
    FilterConcat(IsKept, s, tail);
    forall c | c in s ensures IsKept(c) {
      PrintedIsKept(u, c);
    }
    FilterAll(IsKept, s);
  }

  lemma PrintedIsKept(u: Url, c: char)
    requires IsPlain(u) && c in Printed(u) + MARKER
    ensures IsKept(c)
  {
    assert c in u.scheme || c in "://" || c in u.netloc || c in u.path || c in MARKER;
  }

  lemma LowerIsLower(s: string)
    requires forall c :: c in s ==> !('A' <= c <= 'Z')
    ensures Lower(s) == s
  {
    forall i | 0 <= i < |s| ensures Lower(s)[i] == s[i] {
      assert s[i] in s;
    }
  }

  lemma SchemeIsFound(u: Url, rest: string)
    requires IsPlain(u)
    ensures SchemeEnd(u.scheme + "://" + rest) == |u.scheme|
  {
    var s := u.scheme + "://" + rest;
    assert s[|u.scheme|..|u.scheme| + 1] == ":";
    assert OccursAt(s, ":", |u.scheme|);
    forall i | 0 <= i < |u.scheme| ensures IsSchemeChar(s[i]) && !OccursAt(s, ":", i) {
      assert s[i] in u.scheme;
      assert IsSchemeChar(s[i]) && s[i] != ':';
      assert s[i..i + 1][0] == s[i];
    }
  }

  lemma HostIsFound(scheme: string, netloc: string, path: string)
    requires (forall c :: c in netloc ==> !IsDelimiter(c)) && path != "" && path[0] == '/'
    ensures ParseAfterScheme(scheme, "//" + netloc + path)
         == Url(scheme, netloc, WithoutParams(scheme, Before(Before(path, '#'), '?')))
  {
    hide WithoutParams, Before;
    var rest := "//" + netloc + path;
    assert rest[0..2] == "//";
    assert rest[2..2 + |netloc|] == netloc && rest[2 + |netloc|..] == path;
    forall i | 2 <= i < 2 + |netloc| ensures !IsDelimiter(rest[i]) {
      assert rest[i] in netloc;
    }
    assert rest[2 + |netloc|] == '/';
  }

  lemma CutLeavesHead(head: string, tail: string, c: char) returns (rest: string)
    requires c !in head
    ensures Before(head + tail, c) == head + rest
  {
    var s := head + tail;
    var i := Find(s, [c], 0);
    if i == -1 {
      rest := tail;
    } else {
      assert s[i..i + 1][0] == c;
      assert s[i] == c && forall k :: 0 <= k < |head| ==> s[k] in head;
      rest := s[|head|..i];
      assert s[..i] == head + rest;
    }
  }

  lemma ParamsLeaveHead(scheme: string, head: string, tail: string) returns (rest: string)
    requires head != "" && head[|head| - 1] == '/'
    ensures WithoutParams(scheme, head + tail) == head + rest
  {
    var s := head + tail;
    assert s[|head| - 1] == '/';
    var last := LastSlash(s);
    assert last >= |head| - 1;
    var i := Find(s, ";", last);
    if scheme !in PARAM_SCHEMES || i == -1 {
      rest := tail;
    } else {
      assert s[i..i + 1][0] == ';';
      assert s[i] == ';' && i != |head| - 1;
      rest := s[|head|..i];
      assert s[..i] == head + rest;
    }
  }

  lemma PathIsCut(u: Url, rest: string) returns (end: string)
    requires IsPlain(u)
    ensures WithoutParams(u.scheme, Before(Before(u.path + MARKER + rest, '#'), '?')) == u.path + MARKER + end
  {
    var head := u.path + MARKER;
    assert '#' !in head && '?' !in head;
    var r1 := CutLeavesHead(head, rest, '#');
    var r2 := CutLeavesHead(head, r1, '?');
    end := ParamsLeaveHead(u.scheme, head, r2);
  }

  /** Whatever follows the marker, parsing gives back scheme, host and path up to it. */
  lemma ParsePrinted(u: Url, tail: string) returns (end: string)
    requires IsPlain(u)
    ensures ParseUrl(Printed(u) + MARKER + tail) == Url(u.scheme, u.netloc, u.path + MARKER + end)
  {
    var rest := PlainIsClean(u, tail);
    var path := u.path + MARKER + rest;
    var url := Printed(u) + MARKER + rest;
    assert url == u.scheme + "://" + (u.netloc + path);
    assert url[..|u.scheme|] == u.scheme && url[|u.scheme| + 1..] == "//" + u.netloc + path;
    SchemeIsFound(u, u.netloc + path);
    LowerIsLower(u.scheme);
    HostIsFound(u.scheme, u.netloc, path);
    end := PathIsCut(u, rest);
    hide IsPlain, Printed, Clean, SchemeEnd, Before, WithoutParams, ParseAfterScheme, Lower, IsDelimiter;
  }

  lemma NormalizeShrinks(s: string)
    ensures |NormalizeRepo(s)| <= |s|
  {
    LStripShrinks(s, IsSpace);
  }

  lemma {:induction false} LStripShrinks(s: string, drop: char -> bool)
    ensures |LStrip(s, drop)| <= |s|
  {
    if s != [] && drop(s[0]) {
      LStripShrinks(s[1..], drop);
    }
  }

  /** The base of a printed tree URL is the repository if and only if the
      repository has a path, the path neither holds nor nearly ends in the
      marker, and normalizing the repository once more changes nothing. */
  lemma RoundTripIff(repo: string, branch: string, path: string, u: Url)
    requires IsPlain(u) && NormalizeRepo(repo) == Printed(u)
    ensures RepoBase(ToTree(repo, branch, path)) == Some(NormalizeRepo(repo)) <==>
      && u.path != "" && !Contains(u.path, MARKER) && !EndsWith(u.path, "/tree")
      && NormalizeRepo(Printed(u)) == Printed(u)
  {
    var tail := AfterMarker(branch, path);
    TreeShape(repo, branch, path);
    var k := BaseOfMarked(u, tail);
    hide RepoBase, ToTree, NormalizeRepo, IsPlain, Contains, EndsWith, AfterMarker;
    var base := u.scheme + "://" + u.netloc + u.path[..k];
    NormalizeShrinks(base);
    assert k == |u.path| ==> base == Printed(u);
  }

  lemma BaseOfMarked(u: Url, tail: string) returns (k: nat)
    requires IsPlain(u)
    ensures k <= |u.path|
    ensures k == |u.path| <==> !Contains(u.path, MARKER) && !EndsWith(u.path, "/tree")
    ensures RepoBase(Printed(u) + MARKER + tail)
         == if k == 0 then None else Some(NormalizeRepo(u.scheme + "://" + u.netloc + u.path[..k]))
  {
    hide ParseUrl, IsPlain, Printed, Contains, EndsWith, BaseOfUrl;
    var rest := ParsePrinted(u, tail);
    k := BaseAtMarker(u, rest);
  }

  lemma BaseAtMarker(u: Url, rest: string) returns (k: nat)
    ensures k <= |u.path|
    ensures k == |u.path| <==> !Contains(u.path, MARKER) && !EndsWith(u.path, "/tree")
    ensures BaseOfUrl(Url(u.scheme, u.netloc, u.path + MARKER + rest))
         == if k == 0 then None else Some(NormalizeRepo(u.scheme + "://" + u.netloc + u.path[..k]))
  {
    hide NormalizeRepo, Contains, EndsWith, OccursAt, Find;
    var whole := u.path + MARKER + rest;
    MarkerPlace(u.path, rest);
    k := Find(whole, MARKER, 0);
    assert whole[..k] == u.path[..k];
  }

  function AfterMarker(branch: string, path: string): string {
    var safeBranch := if Strip(branch) == "" then "main" else Strip(branch);
    var rel := LStrip(Strip(path), IsSlash);
    if rel == "" then safeBranch else safeBranch + "/" + rel
  }

  lemma TreeShape(repo: string, branch: string, path: string)
    ensures ToTree(repo, branch, path) == NormalizeRepo(repo) + MARKER + AfterMarker(branch, path)
  {
    hide Strip, LStrip, NormalizeRepo;
    var url := NormalizeRepo(repo);
    var safeBranch := if Strip(branch) == "" then "main" else Strip(branch);
    var rel := LStrip(Strip(path), IsSlash);
    if rel != "" {
      assert url + MARKER + safeBranch + "/" + rel == url + MARKER + (safeBranch + "/" + rel);
    }
  }

  // ---- what is printed ----------------------------------------------------------------

  predicate IsTrimmed(s: string) {
    s != "" ==> !IsSpace(s[0]) && !IsSpace(s[|s| - 1])
  }

  lemma {:induction false} LStripIs(drop: char -> bool, a: string, core: string)
    requires (forall c :: c in a ==> drop(c)) && (core != "" ==> !drop(core[0]))
    ensures LStrip(a + core, drop) == core
  {
    if a == "" {
      assert a + core == core;
    } else {
      assert (a + core)[1..] == a[1..] + core && (a + core)[0] == a[0] && a[0] in a;
      LStripIs(drop, a[1..], core);
    }
  }

  lemma {:induction false} RStripIs(drop: char -> bool, core: string, z: string)
    requires (forall c :: c in z ==> drop(c)) && (core != "" ==> !drop(core[|core| - 1]))
    ensures RStrip(core + z, drop) == core
  {
    if z == "" {
      assert core + z == core;
    } else {
      var n := |z| - 1;
      assert (core + z)[..|core + z| - 1] == core + z[..n] && (core + z)[|core + z| - 1] == z[n] && z[n] in z;
      RStripIs(drop, core, z[..n]);
    }
  }

  lemma StripIs(a: string, core: string, z: string)
    requires (forall c :: c in a + z ==> IsSpace(c)) && IsTrimmed(core)
    ensures Strip(a + core + z) == core
  {
    assert forall c :: c in a ==> c in a + z;
    assert forall c :: c in z ==> c in a + z;
    if core == "" {
      LStripIs(IsSpace, a + z, "");
      assert a + core + z == (a + z) + "";
    } else {
      assert a + core + z == a + (core + z) && (core + z)[0] == core[0];
      LStripIs(IsSpace, a, core + z);
      RStripIs(IsSpace, core, z);
    }
  }

  predicate AreSlashes(s: string) {
    forall c :: c in s ==> c == '/'
  }

  /** White space around a repository URL, slashes behind it and `.git` do not matter. */
  lemma NormalizedIs(a: string, repo: string, git: string, slashes: string, z: string)
    requires (forall c :: c in a + z ==> IsSpace(c)) && AreSlashes(slashes)
    requires repo != "" && IsTrimmed(repo) && repo[|repo| - 1] != '/'
    requires git == ".git" || (git == "" && !EndsWith(repo, ".git"))
    ensures NormalizeRepo(a + (repo + git + slashes) + z) == repo
  {
    var core := repo + git + slashes;
    CoreIsTrimmed(repo, git, slashes);
    hide Strip, LStrip, RStrip, IsTrimmed, IsSpace, AreSlashes;
    StripIs(a, core, z);
    TrailingSlashes(repo + git, slashes);
    if git == ".git" {
      assert (repo + git)[|repo + git| - 4..] == ".git" && (repo + git)[..|repo|] == repo;
    } else {
      assert repo + git == repo;
    }
  }

  lemma CoreIsTrimmed(repo: string, git: string, slashes: string)
    requires AreSlashes(slashes) && repo != "" && IsTrimmed(repo) && repo[|repo| - 1] != '/'
    requires git == ".git" || git == ""
    ensures IsTrimmed(repo + git + slashes) && (repo + git)[|repo + git| - 1] != '/'
  {
    var core := repo + git + slashes;
    assert core[0] == repo[0] && (slashes != "" ==> core[|core| - 1] in slashes);
  }

  lemma TrailingSlashes(s: string, slashes: string)
    requires AreSlashes(slashes) && s != "" && s[|s| - 1] != '/'
    ensures RStrip(s + slashes, IsSlash) == s
  {
    RStripIs(IsSlash, s, slashes);
  }

  /** The printed URL: repository, marker, branch (`main` if there is none) and,
      behind one slash, the path if there is one. */
  lemma TreeUrlIs(repo: string, branch: string, a: string, z: string, c: string, slashes: string, path: string,
      d: string)
    requires (forall x :: x in a + z ==> IsSpace(x)) && (forall x :: x in c + d ==> IsSpace(x))
    requires IsTrimmed(branch) && IsTrimmed(path) && AreSlashes(slashes) && (path != "" ==> path[0] != '/')
    ensures ToTree(repo, a + branch + z, c + (slashes + path) + d) ==
      NormalizeRepo(repo) + "/tree/" + (if branch == "" then "main" else branch)
      + (if path == "" then "" else "/" + path)
  {
    hide NormalizeRepo, Strip, LStrip, IsTrimmed, IsSpace, AreSlashes;
    SlashedPath(c, slashes, path, d);
    StripIs(a, branch, z);
    var url := NormalizeRepo(repo) + "/tree/" + if branch == "" then "main" else branch;
    assert url + ("/" + path) == url + "/" + path;
    assert url + "" == url;
  }

  lemma SlashedPath(c: string, slashes: string, path: string, d: string)
    requires (forall x :: x in c + d ==> IsSpace(x)) && IsTrimmed(path) && AreSlashes(slashes)
    requires path != "" ==> path[0] != '/'
    ensures LStrip(Strip(c + (slashes + path) + d), IsSlash) == path
  {
    var core := slashes + path;
    assert slashes != "" ==> core[0] in slashes && (path == "" ==> core[|core| - 1] in slashes);
    assert path != "" ==> core[|core| - 1] == path[|path| - 1];
    assert slashes == "" ==> core == path;
    StripIs(c, core, d);
    LStripIs(IsSlash, slashes, path);
    hide Strip, LStrip;
  }

  // ---- counting skills ---------------------------------------------------------------

  function NumberUnder(sources: seq<string>, base: string): nat {
    if sources == [] then 0
    else NumberUnder(sources[..|sources| - 1], base) + if RepoBase(sources[|sources| - 1]) == Some(base) then 1 else 0
  }

  method BuildSkillCountByRepo(sources: seq<string>) returns (counts: map<string, nat>)
    ensures forall base :: (if base in counts then counts[base] else 0) == NumberUnder(sources, base)
  {
    hide RepoBase;
    counts := map[];
    for i := 0 to |sources|
      invariant forall base :: (if base in counts then counts[base] else 0) == NumberUnder(sources[..i], base)
    {
      assert sources[..i + 1][..i] == sources[..i];
      var base := RepoBase(sources[i]);
      if base.Some? {
        var before := if base.value in counts then counts[base.value] else 0;
        counts := counts[base.value := before + 1];
      }
    }
    assert sources[..|sources|] == sources;
  }

  datatype PrintedSkill = PrintedSkill(repo: string, url: Url, branch: string, path: string)

  /** A repository for which the round trip holds. */
  predicate IsRepo(repo: string, u: Url) {
    && IsPlain(u) && NormalizeRepo(repo) == Printed(u) && NormalizeRepo(Printed(u)) == Printed(u)
    && u.path != "" && !Contains(u.path, MARKER) && !EndsWith(u.path, "/tree")
  }

  function Sources(skills: seq<PrintedSkill>): (r: seq<string>)
    ensures |r| == |skills|
  {
    if skills == [] then []
    else
      var last := skills[|skills| - 1];
      Sources(skills[..|skills| - 1]) + [ToTree(last.repo, last.branch, last.path)]
  }

  function PrintedUnder(skills: seq<PrintedSkill>, repo: string): nat {
    if skills == [] then 0
    else PrintedUnder(skills[..|skills| - 1], repo)
         + if NormalizeRepo(skills[|skills| - 1].repo) == NormalizeRepo(repo) then 1 else 0
  }

  /** A pack's `skill_count` is the number of skills printed under its repository. */
  lemma {:induction false} SkillCountIsExact(skills: seq<PrintedSkill>, repo: string)
    requires forall s :: s in skills ==> IsRepo(s.repo, s.url)
    ensures NumberUnder(Sources(skills), NormalizeRepo(repo)) == PrintedUnder(skills, repo)
  {
    hide NormalizeRepo, RepoBase, ToTree;
    if skills != [] {
      var front, last := skills[..|skills| - 1], skills[|skills| - 1];
      assert skills == front + [last];
      SkillCountIsExact(front, repo);
      assert Sources(skills)[..|skills| - 1] == Sources(front);
      RoundTripIff(last.repo, last.branch, last.path, last.url);
    }
  }
}
