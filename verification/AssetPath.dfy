/** Asset paths as text: ArtifactGroup and Upload print them (pkg/nexus), DownloadGroup parses them
    back (pkg/pipelinectxt/artifacts.go). The library functions used are written out. */
module AssetPath {

  /* ---- strings.Split ---- */

  datatype Index = At(i: nat) | Nowhere

  /** The first place `sep` occurs at. */
  function FirstIndex(s: string, sep: string): Index {
    if sep <= s then At(0)
    else if s == [] then Nowhere
    else
      match FirstIndex(s[1..], sep)
      case At(i) => At(i + 1)
      case Nowhere => Nowhere
  }

  predicate OccursAt(s: string, sep: string, i: nat) {
    i + |sep| <= |s| && s[i..i + |sep|] == sep
  }

  lemma {:induction false} FirstIndexMeaning(s: string, sep: string)
    ensures match FirstIndex(s, sep)
            case At(i) => OccursAt(s, sep, i) && forall j: nat | j < i :: !OccursAt(s, sep, j)
            case Nowhere => forall j: nat :: !OccursAt(s, sep, j)
  {
    if sep <= s {
      assert s[0..|sep|] == sep;
    } else {
      assert !OccursAt(s, sep, 0);
      if s != [] {
        FirstIndexMeaning(s[1..], sep);
        forall j: nat | j > 0 ensures OccursAt(s, sep, j) <==> OccursAt(s[1..], sep, j - 1) {
          OccursInTail(s, sep, j);
        }
      }
    }
  }

  lemma OccursInTail(s: string, sep: string, j: nat)
    requires s != [] && j > 0
    ensures OccursAt(s, sep, j) <==> OccursAt(s[1..], sep, j - 1)
  {
    if j + |sep| <= |s| {
      assert s[j..j + |sep|] == s[1..][j - 1..j - 1 + |sep|];
    }
  }

  function Split(s: string, sep: string): (parts: seq<string>)
    requires sep != []
    ensures parts != []
    decreases |s|
  {
    match FirstIndex(s, sep)
    case Nowhere => [s]
    case At(i) =>
      FirstIndexMeaning(s, sep);
      [s[..i]] + Split(s[i + |sep|..], sep)
  }

  function Join(parts: seq<string>): string {
    if parts == [] then "" else if |parts| == 1 then parts[0] else parts[0] + "/" + Join(parts[1..])
  }

  lemma FirstSlash(name: string, rest: string)
    requires '/' !in name
    ensures FirstIndex(name + "/" + rest, "/") == At(|name|)
  {
    var s := name + "/" + rest;
    FirstIndexMeaning(s, "/");
    assert s[|name|..|name| + 1] == "/";
    assert OccursAt(s, "/", |name|);
    forall j: nat | j < |name| ensures !OccursAt(s, "/", j) {
      assert s[j] == name[j] && s[j] in name;
      assert s[j..j + 1][0] == s[j];
    }
  }

  lemma NoSlash(name: string)
    requires '/' !in name
    ensures Split(name, "/") == [name]
  {
    FirstIndexMeaning(name, "/");
    forall j: nat ensures !OccursAt(name, "/", j) {
      if j < |name| {
        assert name[j] in name && name[j..j + 1][0] == name[j];
      }
    }
  }

  lemma {:induction false} SplitOfJoin(parts: seq<string>)
    requires parts != [] && forall p | p in parts :: '/' !in p
    ensures Split(Join(parts), "/") == parts
  {
    if |parts| == 1 {
      NoSlash(parts[0]);
    } else {
      var rest := Join(parts[1..]);
      FirstSlash(parts[0], rest);
      var s := parts[0] + "/" + rest;
      assert s[..|parts[0]|] == parts[0] && s[|parts[0]| + 1..] == rest;
      SplitOfJoin(parts[1..]);
    }
  }

  /** Splitting at a separator gives back two given parts exactly if the first occurrence is the one
      between them and there is none in the second. */
  lemma SplitsInTwo(front: string, sep: string, rest: string)
    requires sep != []
    ensures Split(front + sep + rest, sep) == [front, rest] <==>
      && (forall j: nat | j < |front| :: !OccursAt(front + sep + rest, sep, j))
      && (forall j: nat :: !OccursAt(rest, sep, j))
  {
    var s := front + sep + rest;
    FirstIndexMeaning(s, sep);
    FirstIndexMeaning(rest, sep);
    assert OccursAt(s, sep, |front|);
    var i := FirstIndex(s, sep).i;
    assert Split(s, sep) == [s[..i]] + Split(s[i + |sep|..], sep);
    if i == |front| {
      assert s[..i] == front && s[i + |sep|..] == rest;
      if FirstIndex(rest, sep).At? {
        var k := FirstIndex(rest, sep).i;
        assert |Split(rest, sep)| >= 2;
      }
    } else {
      assert OccursAt(s, sep, i) && i < |front|;
      assert |Split(s, sep)[0]| == i;
    }
  }

  /* ---- path.Clean, path.Dir, path.Base ---- */

  /** Lexical cleaning of the names of a path: no empty names, no ".", ".." taken up where possible. */
  function CleanNames(parts: seq<string>, rooted: bool, acc: seq<string>): seq<string> {
    if parts == [] then acc
    else
      var p, rest := parts[0], parts[1..];
      if p == "" || p == "." then CleanNames(rest, rooted, acc)
      else if p == ".." then
        if acc != [] && acc[|acc| - 1] != ".." then CleanNames(rest, rooted, acc[..|acc| - 1])
        else if rooted then CleanNames(rest, rooted, acc)
        else CleanNames(rest, rooted, acc + [p])
      else CleanNames(rest, rooted, acc + [p])
  }

  function Clean(path: string): string {
    var rooted := "/" <= path;
    var cleaned := Join(CleanNames(Split(path, "/"), rooted, []));
    if rooted then "/" + cleaned else if cleaned == "" then "." else cleaned
  }

  /** Everything up to and including the last slash. */
  function UpToLastSlash(path: string): (dir: string)
    ensures |dir| <= |path|
  {
    if path == [] then "" else if path[|path| - 1] == '/' then path else UpToLastSlash(path[..|path| - 1])
  }

  function PathDir(path: string): string {
    Clean(UpToLastSlash(path))
  }

  function StripSlashes(path: string): string {
    if path != [] && path[|path| - 1] == '/' then StripSlashes(path[..|path| - 1]) else path
  }

  function PathBase(path: string): string {
    var stripped := StripSlashes(path);
    if path == "" then "."
    else if stripped == "" then "/"
    else stripped[|UpToLastSlash(stripped)|..]
  }

  /** Where the names of a path lead from a directory: up at "..", not at all at "" and ".". */
  function Go(at: seq<string>, p: string): seq<string> {
    if p == "" || p == "." then at
    else if p == ".." then (if at == [] then [] else at[..|at| - 1])
    else at + [p]
  }

  function Resolve(at: seq<string>, parts: seq<string>): seq<string>
    decreases |parts|
  {
    if parts == [] then at else Resolve(Go(at, parts[0]), parts[1..])
  }

  lemma {:induction false} ResolveOneMore(at: seq<string>, parts: seq<string>, p: string)
    ensures Resolve(at, parts + [p]) == Go(Resolve(at, parts), p)
    decreases |parts|
  {
    if parts == [] {
      assert parts + [p] == [p] && [p][1..] == [];
    } else {
      assert (parts + [p])[1..] == parts[1..] + [p];
      ResolveOneMore(Go(at, parts[0]), parts[1..], p);
    }
  }

  /** Cleaned names: no empty ones, no ".", and ".." only at the start of a relative path. */
  predicate AreCleaned(names: seq<string>, rooted: bool) {
    && (forall i | 0 <= i < |names| :: names[i] != "" && names[i] != ".")
    && (forall i | 0 <= i < |names| && names[i] == ".." :: !rooted && forall j | 0 <= j < i :: names[j] == "..")
  }

  /** Cleaning keeps where a path leads: from anywhere for a relative path, from the root for the others. */
  lemma {:induction false} CleanNamesMeaning(parts: seq<string>, rooted: bool, acc: seq<string>, at: seq<string>)
    requires AreCleaned(acc, rooted) && (rooted ==> at == [])
    ensures AreCleaned(CleanNames(parts, rooted, acc), rooted)
    ensures Resolve(at, CleanNames(parts, rooted, acc)) == Resolve(Resolve(at, acc), parts)
    decreases |parts|
  {
    if parts != [] {
      var p, n := parts[0], |acc| - 1;
      if p == "" || p == "." {
        CleanNamesMeaning(parts[1..], rooted, acc, at);
      } else if p == ".." && acc != [] && acc[n] != ".." {
        assert acc == acc[..n] + [acc[n]];
        ResolveOneMore(at, acc[..n], acc[n]);
        CleanNamesMeaning(parts[1..], rooted, acc[..n], at);
      } else if p == ".." && rooted {
        CleanNamesMeaning(parts[1..], rooted, acc, at);
      } else {
        ResolveOneMore(at, acc, p);
        CleanNamesMeaning(parts[1..], rooted, acc + [p], at);
      }
    }
  }

  lemma {:induction false} PartsHaveNoSlash(s: string)
    ensures forall p | p in Split(s, "/") :: '/' !in p
    decreases |s|
  {
    FirstIndexMeaning(s, "/");
    match FirstIndex(s, "/")
    case Nowhere =>
      forall i | 0 <= i < |s| ensures s[i] != '/' {
        assert !OccursAt(s, "/", i) && s[i..i + 1] == [s[i]];
      }
    case At(k) =>
      forall i | 0 <= i < k ensures s[i] != '/' {
        assert !OccursAt(s, "/", i) && s[i..i + 1] == [s[i]];
      }
      PartsHaveNoSlash(s[k + 1..]);
  }

  lemma {:induction false} CleanNamesFromParts(parts: seq<string>, rooted: bool, acc: seq<string>)
    requires forall p | p in parts + acc :: '/' !in p
    ensures forall p | p in CleanNames(parts, rooted, acc) :: '/' !in p
    decreases |parts|
  {
    if parts != [] {
      var p, rest := parts[0], parts[1..];
      assert p in parts + acc && forall q | q in rest + (acc + [p]) :: q in parts + acc;
      assert acc != [] ==> forall q | q in rest + acc[..|acc| - 1] :: q in parts + acc;
      CleanNamesFromParts(rest, rooted, acc);
      CleanNamesFromParts(rest, rooted, acc + [p]);
      if acc != [] {
        CleanNamesFromParts(rest, rooted, acc[..|acc| - 1]);
      }
    }
  }

  /** What Clean joins splits into the same names again, with an empty one in front of a rooted path. */
  lemma SplitOfClean(path: string)
    ensures var rooted := "/" <= path;
      var names := CleanNames(Split(path, "/"), rooted, []);
      Split(Clean(path), "/") ==
      if names == [] then (if rooted then ["", ""] else ["."]) else if rooted then [""] + names else names
  {
    var rooted := "/" <= path;
    var parts := Split(path, "/");
    var names := CleanNames(parts, rooted, []);
    PartsHaveNoSlash(path);
    assert parts + [] == parts;
    CleanNamesFromParts(parts, rooted, []);
    CleanNamesMeaning(parts, rooted, [], []);
    if names == [] {
      SplitOfJoin(if rooted then ["", ""] else ["."]);
      assert Join(["", ""]) == "/" && Join(["."]) == ".";
    } else {
      NamesAreNotEmpty(names);
      SplitOfJoin(if rooted then [""] + names else names);
      assert ([""] + names)[1..] == names;
      assert Join([""] + names) == "/" + Join(names);
    }
  }

  lemma NamesAreNotEmpty(names: seq<string>)
    requires names != [] && names[0] != ""
    ensures Join(names) != ""
  {
  }

  predicate IsRooted(path: string) {
    "/" <= path
  }

  function Written(names: seq<string>, rooted: bool): string {
    if rooted then "/" + Join(names) else if names == [] then "." else Join(names)
  }

  /** A cleaned path leads where the path did, and its names are clean. */
  lemma CleanMeaning(path: string, at: seq<string>)
    requires "/" <= path ==> at == []
    ensures Resolve(at, Split(Clean(path), "/")) == Resolve(at, Split(path, "/"))
    ensures exists names :: AreCleaned(names, IsRooted(path)) && Clean(path) == Written(names, IsRooted(path))
  {
    var rooted := "/" <= path;
    var names := CleanNames(Split(path, "/"), rooted, []);
    SplitOfClean(path);
    CleanNamesMeaning(Split(path, "/"), rooted, [], at);
    assert Resolve(at, []) == at;
    if names == [] {
      assert ["", ""][1..] == [""] && [""][1..] == [] && ["."][1..] == [];
    } else {
      NamesAreNotEmpty(names);
      assert ([""] + names)[1..] == names;
    }
    assert AreCleaned(names, IsRooted(path)) && Clean(path) == Written(names, IsRooted(path));
  }

  /** A name a path can consist of without being changed by cleaning. */
  predicate IsName(name: string) {
    name != "" && name != "." && name != ".." && '/' !in name
  }

  lemma {:induction false} NamesAreClean(names: seq<string>, rooted: bool, acc: seq<string>)
    requires forall n | n in names :: IsName(n)
    ensures CleanNames(names + [""], rooted, acc) == acc + names
    ensures CleanNames(names, rooted, acc) == acc + names
    decreases |names|
  {
    if names == [] {
      assert names + [""] == [""] && [""][1..] == [] && acc + names == acc;
    } else {
      assert IsName(names[0]) && (names + [""])[0] == names[0];
      assert (names + [""])[1..] == names[1..] + [""];
      NamesAreClean(names[1..], rooted, acc + [names[0]]);
      assert acc + [names[0]] + names[1..] == acc + names;
    }
  }

  lemma {:induction false} JoinStarts(names: seq<string>)
    requires names != [] && forall n | n in names :: IsName(n)
    ensures Join(names) != "" && Join(names)[0] != '/' && Join(names)[|Join(names)| - 1] != '/'
  {
    assert names[0] in names && names[0][0] in names[0] && names[0][|names[0]| - 1] in names[0];
    if |names| > 1 {
      JoinStarts(names[1..]);
    }
  }

  lemma {:induction false} JoinAppend(names: seq<string>, last: string)
    requires names != []
    ensures Join(names + [last]) == Join(names) + "/" + last
  {
    if |names| > 1 {
      assert (names + [last])[1..] == names[1..] + [last];
      JoinAppend(names[1..], last);
    }
  }

  lemma CleanOfParts(parts: seq<string>, names: seq<string>)
    requires parts != [] && forall p | p in parts :: '/' !in p
    requires Join(parts) != "" && Join(parts)[0] != '/'
    requires names != [] && CleanNames(parts, false, []) == names && Join(names) != ""
    ensures Clean(Join(parts)) == Join(names)
  {
    SplitOfJoin(parts);
    assert !("/" <= Join(parts));
  }

  /** A relative path of names is clean, with or without a trailing slash. */
  lemma CleanIsIdentity(names: seq<string>)
    requires names != [] && forall n | n in names :: IsName(n)
    ensures Clean(Join(names)) == Join(names)
    ensures Clean(Join(names) + "/") == Join(names)
  {
    JoinStarts(names);
    NamesAreClean(names, false, []);
    assert [] + names == names;
    CleanOfParts(names, names);
    JoinAppend(names, "");
    assert Join(names) + "/" + "" == Join(names) + "/";
    CleanOfParts(names + [""], names);
  }

  lemma {:induction false} LastSlashOfFile(dir: string, file: string)
    requires '/' !in file
    ensures UpToLastSlash(dir + "/" + file) == dir + "/"
    decreases |file|
  {
    var path := dir + "/" + file;
    if file != "" {
      assert file[|file| - 1] in file && path[|path| - 1] == file[|file| - 1];
      assert path[..|path| - 1] == dir + "/" + file[..|file| - 1];
      LastSlashOfFile(dir, file[..|file| - 1]);
    } else {
      assert path == dir + "/";
    }
  }

  /** Directory and file name come back from the path they were joined to. */
  lemma DirAndBase(names: seq<string>, file: string)
    requires names != [] && (forall n | n in names :: IsName(n)) && IsName(file)
    ensures PathDir(Join(names) + "/" + file) == Join(names)
    ensures PathBase(Join(names) + "/" + file) == file
  {
    var path := Join(names) + "/" + file;
    LastSlashOfFile(Join(names), file);
    CleanIsIdentity(names);
    assert path[|path| - 1] == file[|file| - 1] && file[|file| - 1] in file;
    assert StripSlashes(path) == path;
    assert path[|Join(names)| + 1..] == file;
  }

  /* ---- Printing and parsing ---- */

  datatype Commit = Commit(project: string, repository: string, sha: string)

  function Names(c: Commit): seq<string> {
    [c.project, c.repository, c.sha]
  }

  function ArtifactGroupBase(c: Commit): string {
    "/" + c.project + "/" + c.repository + "/" + c.sha
  }

  function ArtifactGroup(c: Commit, subdir: string): string {
    ArtifactGroupBase(c) + "/" + subdir
  }

  /** The path of the link Upload returns; `front` is what comes before the group, that is the
      server's own path and "/repository/" with the repository's name. */
  function UploadedPath(front: string, group: string, file: string): string {
    front + group + "/" + file
  }

  /** A path splits at its first slash in one way. */
  lemma SameFirst(a: string, x: string, b: string, y: string)
    requires '/' !in a && '/' !in b && a + "/" + x == b + "/" + y
    ensures a == b && x == y
  {
    FirstSlash(a, x);
    FirstSlash(b, y);
    var path := a + "/" + x;
    assert a == path[..|a|] && b == path[..|b|];
    assert x == path[|a| + 1..] && y == path[|b| + 1..];
  }

  /** Distinct commits have distinct groups, and nothing in the group of one, and so no asset of it, is
      in the group of another. */
  lemma GroupsApart(c: Commit, d: Commit, x: string, y: string)
    requires (forall n | n in Names(c) :: IsName(n)) && (forall n | n in Names(d) :: IsName(n)) && c != d
    ensures ArtifactGroupBase(c) + "/" + x != ArtifactGroupBase(d) + "/" + y
    ensures ArtifactGroupBase(c) != ArtifactGroupBase(d)
  {
    assert c.project in Names(c) && c.repository in Names(c) && c.sha in Names(c);
    assert d.project in Names(d) && d.repository in Names(d) && d.sha in Names(d);
    if ArtifactGroupBase(c) + "/" + x == ArtifactGroupBase(d) + "/" + y {
      SameGroup(c, d, x, y);
    }
    if ArtifactGroupBase(c) == ArtifactGroupBase(d) {
      SameGroup(c, d, "", "");
    }
  }

  lemma SameGroup(c: Commit, d: Commit, x: string, y: string)
    requires '/' !in c.project && '/' !in c.repository && '/' !in c.sha
    requires '/' !in d.project && '/' !in d.repository && '/' !in d.sha
    requires ArtifactGroupBase(c) + "/" + x == ArtifactGroupBase(d) + "/" + y
    ensures c == d && x == y
  {
    var c2, c1 := c.sha + "/" + x, c.repository + "/" + (c.sha + "/" + x);
    var d2, d1 := d.sha + "/" + y, d.repository + "/" + (d.sha + "/" + y);
    assert ArtifactGroupBase(c) + "/" + x == "" + "/" + (c.project + "/" + c1);
    assert ArtifactGroupBase(d) + "/" + y == "" + "/" + (d.project + "/" + d1);
    SameFirst("", c.project + "/" + c1, "", d.project + "/" + d1);
    SameFirst(c.project, c1, d.project, d1);
    SameFirst(c.repository, c2, d.repository, d2);
    SameFirst(c.sha, x, d.sha, y);
  }

  datatype ParsedAsset = Parsed(directory: string, name: string) | Unexpected

  /** DownloadGroup on one asset's URL path. */
  function ParseAsset(path: string, group: string): ParsedAsset {
    var parts := Split(path, group + "/");
    if |parts| != 2 then Unexpected
    else if '/' !in parts[1] then Unexpected
    else Parsed(PathDir(parts[1]), PathBase(parts[1]))
  }

  lemma PrintedParts(front: string, c: Commit, subdir: string, file: string)
    ensures UploadedPath(front, ArtifactGroup(c, subdir), file) ==
            front + (ArtifactGroupBase(c) + "/") + (subdir + "/" + file)
  {
  }

  lemma JoinOfMore(parts: seq<string>)
    requires |parts| > 1
    ensures Join(parts) == parts[0] + "/" + Join(parts[1..])
  {
  }

  /** The first slash of a joined path is the one after the first name. */
  lemma FirstSlashPlace(parts: seq<string>, k: nat)
    requires parts != [] && '/' !in parts[0] && 0 < k <= |Join(parts)| && Join(parts)[k - 1] == '/'
    ensures |parts| > 1 && k > |parts[0]|
  {
    var first, path := parts[0], Join(parts);
    assert forall i | 0 <= i < |first| :: path[i] == first[i] && first[i] in first;
  }

  /** A slash of a joined path is the one after the first name or one of the rest. */
  lemma SlashPlace(parts: seq<string>, k: nat)
    requires parts != [] && '/' !in parts[0] && 0 < k <= |Join(parts)| && Join(parts)[k - 1] == '/'
    ensures |parts| > 1 && k > |parts[0]| && Join(parts)[k..] == Join(parts[1..])[k - |parts[0]| - 1..]
    ensures k > |parts[0]| + 1 ==> Join(parts[1..])[k - |parts[0]| - 2] == '/'
  {
    FirstSlashPlace(parts, k);
    JoinOfMore(parts);
  }

  /** What follows a slash of a joined path is the rest of its names. */
  lemma {:induction false} AfterSlash(parts: seq<string>, k: nat) returns (m: nat)
    requires parts != [] && forall p | p in parts :: '/' !in p
    requires 0 < k <= |Join(parts)| && Join(parts)[k - 1] == '/'
    ensures 0 < m < |parts| && Join(parts)[k..] == Join(parts[m..])
  {
    SlashPlace(parts, k);
    var n := k - |parts[0]| - 1;
    if n == 0 {
      m := 1;
    } else {
      var l := AfterSlash(parts[1..], n);
      assert parts[1..][l..] == parts[l + 1..];
      m := l + 1;
    }
  }

  /** What follows a slash within a group before its last. */
  lemma AfterSlashOfGroup(c: Commit, k: nat) returns (suffix: seq<string>)
    requires forall n | n in Names(c) :: IsName(n)
    requires 0 < k <= |ArtifactGroupBase(c)| && (ArtifactGroupBase(c) + "/")[k - 1] == '/'
    ensures suffix != [] && forall n | n in suffix :: IsName(n)
    ensures (ArtifactGroupBase(c) + "/")[k..] == Join(suffix) + "/"
  {
    var parts := [""] + Names(c);
    assert parts[1..] == Names(c) && Names(c)[1..] == [c.repository, c.sha] && [c.repository, c.sha][1..] == [c.sha];
    assert Join([c.sha]) == c.sha && Join([c.repository, c.sha]) == c.repository + "/" + c.sha;
    assert Join(Names(c)) == c.project + "/" + (c.repository + "/" + c.sha);
    assert Join(parts) == ArtifactGroupBase(c);
    var m := AfterSlash(parts, k);
    suffix := parts[m..];
    assert suffix == Names(c)[m - 1..];
  }

  lemma SplitAtFirst(s: string, sep: string, i: nat)
    requires sep != [] && FirstIndex(s, sep) == At(i) && i + |sep| <= |s|
    ensures Split(s, sep) == [s[..i]] + Split(s[i + |sep|..], sep)
  {
  }

  ghost predicate Occurs(s: string, sep: string) {
    exists j: nat :: OccursAt(s, sep, j)
  }

  lemma SinglePart(s: string, sep: string)
    requires sep != []
    ensures |Split(s, sep)| == 1 ==> Split(s, sep) == [s] && !Occurs(s, sep)
  {
    FirstIndexMeaning(s, sep);
  }

  /** The second of exactly two parts is all that follows the first occurrence. */
  lemma SecondOfTwo(path: string, sep: string, i: nat)
    requires sep != [] && FirstIndex(path, sep) == At(i) && i + |sep| <= |path|
    ensures |Split(path, sep)| == 2 ==> Split(path, sep)[1] == path[i + |sep|..] && !Occurs(path[i + |sep|..], sep)
  {
    SplitAtFirst(path, sep, i);
    SinglePart(path[i + |sep|..], sep);
  }

  lemma OccursAfter(path: string, sep: string, k: nat, j: nat)
    requires k <= j && OccursAt(path, sep, j)
    ensures Occurs(path[k..], sep)
  {
    var tail := path[k..];
    assert tail[j - k..j - k + |sep|] == path[j..j + |sep|];
    assert OccursAt(tail, sep, j - k);
  }

  lemma FoundTwice(path: string, sep: string, i: nat, j: nat)
    requires sep != [] && FirstIndex(path, sep) == At(i) && i + |sep| <= j && OccursAt(path, sep, j)
    ensures |Split(path, sep)| != 2
  {
    SecondOfTwo(path, sep, i);
    OccursAfter(path, sep, i + |sep|, j);
  }

  lemma OccursInRest(front: string, sep: string, rest: string, j: nat)
    requires OccursAt(rest, sep, j)
    ensures OccursAt(front + sep + rest, sep, |front| + |sep| + j)
  {
    var path, k := front + sep + rest, |front| + |sep| + j;
    assert path[|front| + |sep|..] == rest;
    assert path[k..k + |sep|] == rest[j..j + |sep|];
  }

  /** The first occurrence is not after the one between two given parts. */
  lemma FirstIsEarly(front: string, sep: string, rest: string) returns (i: nat)
    ensures FirstIndex(front + sep + rest, sep) == At(i) && i <= |front|
  {
    var path := front + sep + rest;
    FirstIndexMeaning(path, sep);
    assert OccursAt(path, sep, |front|);
    i := FirstIndex(path, sep).i;
  }

  lemma SplitsInMore(path: string, front: string, sep: string, rest: string)
    requires sep != [] && path == front + sep + rest && Occurs(rest, sep)
    ensures |Split(path, sep)| != 2
  {
    var j: nat :| OccursAt(rest, sep, j);
    var i := FirstIsEarly(front, sep, rest);
    OccursInRest(front, sep, rest, j);
    FoundTwice(path, sep, i, |front| + |sep| + j);
  }

  /** An asset that lies in the group itself is refused. */
  lemma NoSubfolderIsRefused(front: string, c: Commit, file: string)
    requires '/' !in file
    requires forall j: nat | j < |front| ::
      !OccursAt(front + (ArtifactGroupBase(c) + "/") + file, ArtifactGroupBase(c) + "/", j)
    ensures ParseAsset(front + (ArtifactGroupBase(c) + "/") + file, ArtifactGroupBase(c)) == Unexpected
  {
    var sep := ArtifactGroupBase(c) + "/";
    forall j: nat ensures !OccursAt(file, sep, j) {
      if j + |sep| <= |file| {
        assert file[j] in file && file[j..j + |sep|][0] == file[j] && sep[0] == '/';
      }
    }
    SplitsInTwo(front, sep, file);
  }

  /** One more occurrence in the part after the group, and the link is refused, whatever precedes it. */
  lemma RepeatedGroupIsRefused(front: string, c: Commit, subdir: string, file: string)
    requires Occurs(subdir + "/" + file, ArtifactGroupBase(c) + "/")
    ensures ParseAsset(UploadedPath(front, ArtifactGroup(c, subdir), file), ArtifactGroupBase(c)) == Unexpected
  {
    PrintedParts(front, c, subdir, file);
    SplitsInMore(UploadedPath(front, ArtifactGroup(c, subdir), file), front, ArtifactGroupBase(c) + "/",
                 subdir + "/" + file);
  }

  /** Where two occurrences overlap, what follows the first begins after a slash of the second. */
  lemma GroupOverlaps(front: string, c: Commit, rest: string, i: nat) returns (suffix: seq<string>)
    requires forall n | n in Names(c) :: IsName(n)
    requires i < |front| < i + |ArtifactGroupBase(c) + "/"|
    requires OccursAt(front + (ArtifactGroupBase(c) + "/") + rest, ArtifactGroupBase(c) + "/", i)
    ensures suffix != [] && forall n | n in suffix :: IsName(n)
    ensures (front + (ArtifactGroupBase(c) + "/") + rest)[i + |ArtifactGroupBase(c) + "/"|..] ==
      Join(suffix) + "/" + rest
  {
    var sep := ArtifactGroupBase(c) + "/";
    var path, k := front + sep + rest, i + |sep| - |front|;
    assert path[i..i + |sep|][|sep| - 1] == path[|front| + k - 1] == sep[k - 1];
    suffix := AfterSlashOfGroup(c, k);
    assert path[i + |sep|..] == sep[k..] + rest;
  }

  /** A directory that starts with names it should not have. */
  lemma LongerDirectory(suffix: seq<string>, names: seq<string>, file: string)
    requires suffix != [] && names != [] && (forall n | n in suffix + names :: IsName(n)) && IsName(file)
    ensures PathDir(Join(suffix) + "/" + (Join(names) + "/" + file)) != Join(names)
  {
    JoinConcat(suffix, names);
    assert Join(suffix) + "/" + (Join(names) + "/" + file) == Join(suffix + names) + "/" + file;
    DirAndBase(suffix + names, file);
    assert |Join(suffix + names)| > |Join(names)|;
  }

  /** The path does not parse to an asset in `dir`. */
  ghost predicate ParsesElsewhere(path: string, sep: string, dir: string)
    requires sep != []
  {
    |Split(path, sep)| == 2 ==> PathDir(Split(path, sep)[1]) != dir
  }

  lemma FoundEarlier(path: string, sep: string, i: nat, dir: string)
    requires sep != [] && FirstIndex(path, sep) == At(i) && i + |sep| <= |path| && PathDir(path[i + |sep|..]) != dir
    ensures ParsesElsewhere(path, sep, dir)
  {
    SecondOfTwo(path, sep, i);
  }

  /** An occurrence that reaches into the printed group. */
  lemma ReachingGroup(front: string, c: Commit, names: seq<string>, file: string, path: string, sep: string, i: nat)
    requires forall n | n in Names(c) :: IsName(n)
    requires names != [] && (forall n | n in names :: IsName(n)) && IsName(file)
    requires sep == ArtifactGroupBase(c) + "/" && path == front + sep + (Join(names) + "/" + file)
    requires i < |front| < i + |sep| && OccursAt(path, sep, i)
    ensures PathDir(path[i + |sep|..]) != Join(names)
  {
    var suffix := GroupOverlaps(front, c, Join(names) + "/" + file, i);
    LongerDirectory(suffix, names, file);
  }

  /** Where the group occurs earlier, there are more parts or the second has a longer directory. */
  lemma EarlierGroup(front: string, c: Commit, names: seq<string>, file: string, path: string, sep: string, i: nat)
    requires forall n | n in Names(c) :: IsName(n)
    requires names != [] && (forall n | n in names :: IsName(n)) && IsName(file)
    requires sep == ArtifactGroupBase(c) + "/" && path == front + sep + (Join(names) + "/" + file)
    requires FirstIndex(path, sep) == At(i) && OccursAt(path, sep, i) && i < |front|
    ensures ParsesElsewhere(path, sep, Join(names))
  {
    if i + |sep| <= |front| {
      assert path[|front|..|front| + |sep|] == sep;
      FoundTwice(path, sep, i, |front|);
    } else {
      ReachingGroup(front, c, names, file, path, sep, i);
      FoundEarlier(path, sep, i, Join(names));
    }
  }

  /** An asset uploaded from a subdirectory is parsed back to that subdirectory and file name exactly
      if the group with its slash begins nowhere before the place it was printed at and occurs nowhere
      after it. (An occurrence that begins inside the printed group is harmless.) */
  lemma AssetRoundTrip(front: string, c: Commit, names: seq<string>, file: string)
    requires forall n | n in Names(c) :: IsName(n)
    requires names != [] && (forall n | n in names :: IsName(n)) && IsName(file)
    ensures var path, sep := UploadedPath(front, ArtifactGroup(c, Join(names)), file), ArtifactGroupBase(c) + "/";
      ParseAsset(path, ArtifactGroupBase(c)) == Parsed(Join(names), file) <==>
        && (forall j: nat | j < |front| :: !OccursAt(path, sep, j))
        && !Occurs(Join(names) + "/" + file, sep)
  {
    var sep, rest := ArtifactGroupBase(c) + "/", Join(names) + "/" + file;
    var path := UploadedPath(front, ArtifactGroup(c, Join(names)), file);
    PrintedParts(front, c, Join(names), file);
    FirstIndexMeaning(path, sep);
    if j: nat :| j < |front| && OccursAt(path, sep, j) {
      EarlierGroup(front, c, names, file, path, sep, FirstIndex(path, sep).i);
    } else if Occurs(rest, sep) {
      RepeatedGroupIsRefused(front, c, Join(names), file);
    } else {
      SplitsInTwo(front, sep, rest);
      assert rest[|Join(names)|] == '/';
      DirAndBase(names, file);
    }
  }

  /** The downloaded file lies where finish looks for it. */
  lemma LocalPathRoundTrip(artifactsDir: seq<string>, names: seq<string>, file: string)
    requires artifactsDir != [] && (forall n | n in artifactsDir :: IsName(n))
    requires names != [] && (forall n | n in names :: IsName(n)) && IsName(file)
    ensures Clean(Join(artifactsDir) + "/" + (Join(names) + "/" + file)) == Join(artifactsDir + names + [file])
  {
    JoinAppend(names, file);
    JoinConcat(artifactsDir, names + [file]);
    assert artifactsDir + names + [file] == artifactsDir + (names + [file]);
    CleanIsIdentity(artifactsDir + (names + [file]));
  }

  lemma {:induction false} JoinConcat(a: seq<string>, b: seq<string>)
    requires a != [] && b != []
    ensures Join(a + b) == Join(a) + "/" + Join(b)
  {
    if |a| == 1 {
      assert (a + b)[1..] == b;
    } else {
      assert (a + b)[1..] == a[1..] + b;
      JoinConcat(a[1..], b);
    }
  }
}
