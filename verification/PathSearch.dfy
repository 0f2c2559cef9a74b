/** The search of execlp() along the prefixes of PATH. */
module PathSearch {
  import opened Options
  import opened Splitting

  datatype Errno = EACCES | ENOEXEC | ENOENT | OtherError(code: nat)

  /** What execve() does: it does not return, or it fails. */
  datatype Answer = Done | Failed(errno: Errno)

  predicate IsColon(c: char) { c == ':' }
  predicate IsNul(c: char) { c == '\0' }

  // ------------------------------------------------ strings in a C buffer

  ghost predicate Holds(buf: array<char>, s: string)
    reads buf
  {
    |s| < buf.Length && buf[..|s|] == s && buf[|s|] == '\0' && Free(s, IsNul)
  }

  method StrLen(buf: array<char>, ghost s: string) returns (k: nat)
    requires Holds(buf, s)
    ensures k == |s|
  {
    assert forall i | 0 <= i < |s| :: buf[..|s|][i] == s[i] && s[i] in s;
    k := 0;
    while buf[k] != '\0'
      invariant k <= |s|
      decreases |s| - k
    {
      k := k + 1;
    }
  }

  /** Appends at most n characters of t. That there is room is for the caller to
      see to. */
  method StrNCat(buf: array<char>, ghost s: string, t: string, n: nat)
    requires Holds(buf, s) && Free(t, IsNul) && n <= |t| && |s| + n < buf.Length
    modifies buf
    ensures Holds(buf, s + t[..n])
  {
    var k := StrLen(buf, s);
    for i := 0 to n
      invariant buf[..|s| + i] == s + t[..i]
    {
      buf[k + i] := t[i];
      assert buf[..|s| + i + 1] == buf[..|s| + i] + [t[i]];
    }
    buf[k + n] := '\0';
  }

  // ---------------------------------------------------------- the prefixes

  function SearchPath(path: Option<string>): string {
    if path.None? || path.value == "" then "." else path.value
  }

  /** The pathname for one prefix; an empty prefix is the current directory. */
  function Candidate(prefix: string, filename: string): string {
    (if prefix == "" then "." else prefix) + "/" + filename
  }

  function Candidates(prefixes: seq<string>, filename: string): (names: seq<string>)
    ensures |names| == |prefixes|
    ensures forall i | 0 <= i < |prefixes| :: names[i] == Candidate(prefixes[i], filename)
  {
    seq(|prefixes|, i requires 0 <= i < |prefixes| => Candidate(prefixes[i], filename))
  }

  /** All pathnames to try: the file name itself if it has a slash. */
  function Pathnames(filename: string, path: Option<string>): (names: seq<string>)
    ensures |names| > 0
  {
    if '/' in filename then [filename]
    else Candidates(Split(SearchPath(path), IsColon), filename)
  }

  /** The prefixes are the only pieces without a colon that make up the path. */
  lemma {:induction false} PrefixesMakeUpThePath(path: string, pieces: seq<string>)
    requires |pieces| > 0
    ensures pieces == Split(path, IsColon) <==>
              Join(pieces, ':') == path && forall p | p in pieces :: Free(p, IsColon)
  {
    SplitThenJoin(path, ':', IsColon);
    SplitFreeOfSeparators(path, IsColon);
    if forall p | p in pieces :: Free(p, IsColon) {
      JoinThenSplit(pieces, ':', IsColon);
    }
  }

  /** What is tried for any colon-free pieces that make up the path: for an empty
      piece the file in the current directory, for any other the piece, one slash
      and the file name. */
  lemma {:induction false} TriedForPieces(filename: string, path: string, pieces: seq<string>)
    requires '/' !in filename && path != ""
    requires |pieces| > 0 && Join(pieces, ':') == path && forall p | p in pieces :: Free(p, IsColon)
    ensures var names := Pathnames(filename, Some(path));
            && |names| == |pieces|
            && forall i | 0 <= i < |names| ::
                 && names[i] == (if pieces[i] == "" then "./" + filename else pieces[i] + "/" + filename)
                 && (names[i][0] == '/' <==> pieces[i] != "" && pieces[i][0] == '/')
  {
    PrefixesMakeUpThePath(path, pieces);
    assert "." + "/" == "./";
  }

  lemma TriedWithoutPath(filename: string)
    ensures '/' !in filename ==>
              Pathnames(filename, None) == Pathnames(filename, Some("")) == ["./" + filename]
    ensures '/' in filename ==> forall path :: Pathnames(filename, path) == [filename]
  {
    SplitFree(".", IsColon);
    assert "." + "/" == "./";
  }

  /** The path has an empty prefix: it is empty, begins or ends with a colon, or has
      two in a row. */
  ghost predicate HasEmptyPrefix(path: string) {
    path == "" || path[0] == ':' || path[|path| - 1] == ':'
    || exists i :: 0 <= i < |path| - 1 && path[i] == path[i + 1] == ':'
  }

  lemma TailHasEmptyPrefix(path: string)
    requires |path| > 1
    ensures HasEmptyPrefix(path) <==>
              || path[0] == ':' || path[|path| - 1] == ':'
              || exists i :: 0 <= i < |path[1..]| - 1 && path[1..][i] == path[1..][i + 1] == ':'
  {
    if i :| 0 <= i < |path| - 1 && path[i] == path[i + 1] == ':' {
      if i > 0 {
        assert path[1..][i - 1] == path[1..][i] == ':';
      }
    }
    if i :| 0 <= i < |path[1..]| - 1 && path[1..][i] == path[1..][i + 1] == ':' {
      assert path[i + 1] == path[i + 2] == ':';
    }
  }

  /** Some piece is empty just then. */
  lemma {:induction false} EmptyPieces(path: string)
    ensures "" in Split(path, IsColon) <==> HasEmptyPrefix(path)
  {
    var pieces := Split(path, IsColon);
    assert pieces == [pieces[0]] + pieces[1..];
    EmptyFirstPiece(path);
    if path != "" {
      AfterFirst(path);
    }
  }

  /** An empty piece after the first one. */
  lemma {:induction false} AfterFirst(path: string)
    requires path != ""
    ensures "" in Split(path, IsColon)[1..] <==>
              || path[|path| - 1] == ':' || exists i :: 0 <= i < |path| - 1 && path[i] == path[i + 1] == ':'
  {
    var rest := Split(path[1..], IsColon);
    if |path| == 1 {
      assert path[1..] == "";
    } else {
      AfterFirst(path[1..]);
      TailHasEmptyPrefix(path);
      assert rest == [rest[0]] + rest[1..];
      EmptyFirstPiece(path[1..]);
    }
  }

  lemma {:induction false} EmptyFirstPiece(path: string)
    ensures Split(path, IsColon)[0] == "" <==> path == "" || path[0] == ':'
  {
  }

  /** The current directory is searched just when the path has an empty prefix, or
      names it. */
  lemma {:induction false} CurrentDirectoryTried(filename: string, path: string)
    requires '/' !in filename
    ensures "./" + filename in Pathnames(filename, Some(path)) <==>
              HasEmptyPrefix(path) || "." in Split(path, IsColon)
  {
    if path == "" {
      TriedWithoutPath(filename);
    } else {
      var pieces, names := Split(path, IsColon), Pathnames(filename, Some(path));
      PrefixesMakeUpThePath(path, pieces);
      TriedForPieces(filename, path, pieces);
      EmptyPieces(path);
      hide *;
      forall i | 0 <= i < |names| ensures names[i] == "./" + filename <==> pieces[i] in {"", "."} {
        SamePathname(pieces[i], filename);
      }
      SameThere(names, pieces, "./" + filename);
    }
  }

  lemma SameThere(names: seq<string>, pieces: seq<string>, name: string)
    requires |names| == |pieces| && forall i | 0 <= i < |names| :: names[i] == name <==> pieces[i] in {"", "."}
    ensures name in names <==> "" in pieces || "." in pieces
  {
    if p :| p in pieces && p in {"", "."} {
      var i :| 0 <= i < |pieces| && pieces[i] == p;
      assert names[i] == name;
    }
  }

  lemma SamePathname(piece: string, filename: string)
    ensures "" == piece || piece + "/" + filename == "./" + filename <==> piece in {"", "."}
  {
    var name, here := piece + "/" + filename, "./" + filename;
    assert |name| == |piece| + 1 + |filename| && |here| == 2 + |filename| && here[0] == '.';
    if name == here && piece != "" {
      assert piece[0] == name[0] && piece == [piece[0]];
    }
    assert "." + "/" == "./";
  }

  // ------------------------------------------------------------ the search

  /** The answer of the i-th call of execve() for a pathname, and whether the
      shell can be run if that call says ENOEXEC. Files may change between calls. */
  type Exec = (nat, string) -> Answer
  type Shell = nat -> bool

  predicate Runs(exec: Exec, shell: Shell, i: nat, name: string) {
    exec(i, name).Done? || (exec(i, name) == Failed(ENOEXEC) && shell(i))
  }

  ghost predicate NoneRuns(exec: Exec, shell: Shell, names: seq<string>) {
    forall i | 0 <= i < |names| :: !Runs(exec, shell, i, names[i])
  }

  ghost predicate AccessDenied(exec: Exec, names: seq<string>) {
    exists i | 0 <= i < |names| :: exec(i, names[i]) == Failed(EACCES)
  }

  /** One piece of the path is found and the rest is left. */
  lemma NextPrefix(path: string, start: nat, end: nat)
    requires start <= end <= |path| && Free(path[start..end], IsColon)
    requires end < |path| ==> path[end] == ':'
    ensures end == |path| ==> Split(path[start..], IsColon) == [path[start..end]]
    ensures end < |path| ==>
              Split(path[start..], IsColon) == [path[start..end]] + Split(path[end + 1..], IsColon)
  {
    SplitFree(path[start..end], IsColon);
    if end < |path| {
      assert path[start..] == path[start..end] + [':'] + path[end + 1..];
      SplitConcat(path[start..end], ':', path[end + 1..], IsColon);
    } else {
      assert path[start..] == path[start..end];
    }
  }

  method StrChr(s: string, start: nat, c: char) returns (r: Option<nat>)
    requires start <= |s|
    ensures r.None? ==> c !in s[start..]
    ensures r.Some? ==> start <= r.value < |s| && s[r.value] == c && c !in s[start..r.value]
  {
    for i := start to |s|
      invariant c !in s[start..i]
    {
      if s[i] == c {
        return Some(i);
      }
    }
    return None;
  }

  /** The pathname for the prefix from prStart to prEnd, built in a buffer of the
      size that is allocated for it; no write is outside. */
  method BuildPathname(path: string, prStart: nat, prEnd: nat, filename: string) returns (pathname: array<char>)
    requires prStart <= prEnd <= |path| && Free(path, IsNul) && Free(filename, IsNul)
    ensures fresh(pathname)
    ensures pathname.Length == (if prEnd - prStart > 1 then prEnd - prStart else 1) + |filename| + 2
    ensures Holds(pathname, (if prStart == prEnd then "." else path[prStart..prEnd]) + "/" + filename)
  {
    var size := (if prEnd - prStart > 1 then prEnd - prStart else 1) + |filename| + 2;
    pathname := new char[size];
    pathname[0] := '\0';
    ghost var prefix := if prEnd == prStart then "." else path[prStart..prEnd];
    assert Free("/", IsNul) && Free(".", IsNul);
    assert forall c | c in path[prStart..] :: c in path;
    if prEnd == prStart {
      StrNCat(pathname, "", ".", 1);
      assert "" + "."[..1] == prefix;
    } else {
      StrNCat(pathname, "", path[prStart..], prEnd - prStart);
      assert "" + path[prStart..][..prEnd - prStart] == prefix;
    }
    StrNCat(pathname, prefix, "/", 1);
    assert prefix + "/"[..1] == prefix + "/";
    StrNCat(pathname, prefix + "/", filename, |filename|);
    assert prefix + "/" + filename[..|filename|] == prefix + "/" + filename;
  }

  method PrefixEnd(path: string, prStart: nat) returns (prEnd: nat)
    requires prStart <= |path|
    ensures prStart <= prEnd <= |path| && Free(path[prStart..prEnd], IsColon)
    ensures prEnd < |path| ==> path[prEnd] == ':'
  {
    var colon := StrChr(path, prStart, ':');
    prEnd := if colon.Some? then colon.value else |path|;
  }

  /** execve() sees the string in the buffer, up to the terminator. */
  method Attempt(path: string, prStart: nat, prEnd: nat, filename: string, exec: Exec, n: nat)
    returns (pathname: string, answer: Answer)
    requires prStart <= prEnd <= |path| && Free(path, IsNul) && Free(filename, IsNul)
    ensures pathname == Candidate(path[prStart..prEnd], filename) && answer == exec(n, pathname)
  {
    var buffer := BuildPathname(path, prStart, prEnd, filename);
    var length := StrLen(buffer, Candidate(path[prStart..prEnd], filename));
    pathname := buffer[..length];
    answer := exec(n, pathname);
  }

  // How far the search has come along the path.
  ghost predicate Position(p: string, filename: string, done: nat, tried: seq<string>, start: nat, more: bool) {
    var prefixes := Split(p, IsColon);
    && start <= |p| && done <= |prefixes|
    && tried == Candidates(prefixes[..done], filename)
    && (if more then prefixes[done..] == Split(p[start..], IsColon) else done == |prefixes|)
  }

  lemma AtTheStart(p: string, filename: string, exec: Exec, shell: Shell, errno: Errno)
    ensures Position(p, filename, 0, [], 0, true) && AllFailed(exec, shell, [], false, errno)
  {
    assert p[0..] == p;
  }

  lemma {:induction false} OnePrefixOn(p: string, filename: string, done: nat, tried: seq<string>, start: nat, end: nat)
    requires Position(p, filename, done, tried, start, true) && start <= end <= |p|
    requires Free(p[start..end], IsColon) && (end < |p| ==> p[end] == ':')
    ensures done < |Split(p, IsColon)|
    ensures tried + [Candidate(p[start..end], filename)] <= Candidates(Split(p, IsColon), filename)
    ensures var more := end < |p|;
            Position(p, filename, done + 1, tried + [Candidate(p[start..end], filename)],
                     if more then end + 1 else start, more)
  {
    var prefixes := Split(p, IsColon);
    NextPrefix(p, start, end);
    hide Split, Candidate;
    assert prefixes[done] == prefixes[done..][0] && prefixes[done + 1..] == prefixes[done..][1..];
    assert prefixes[..done + 1] == prefixes[..done] + [prefixes[done]];
  }

  // Every call so far has failed, and these are
  // the flag and the error that are kept.
  ghost predicate AllFailed(exec: Exec, shell: Shell, tried: seq<string>, fndEACCES: bool, savedErrno: Errno) {
    && NoneRuns(exec, shell, tried)
    && (fndEACCES <==> AccessDenied(exec, tried))
    && (tried != [] ==> exec(|tried| - 1, tried[|tried| - 1]) == Failed(savedErrno))
  }

  lemma OneMoreFailed(exec: Exec, shell: Shell, tried: seq<string>, fndEACCES: bool, before: Errno, name: string)
    requires AllFailed(exec, shell, tried, fndEACCES, before) && !Runs(exec, shell, |tried|, name)
    ensures var errno := exec(|tried|, name).errno;
            AllFailed(exec, shell, tried + [name], fndEACCES || errno == EACCES, errno)
  {
    var longer := tried + [name];
    assert longer[|tried|] == name;
    if fndEACCES {
      var i :| 0 <= i < |tried| && exec(i, tried[i]) == Failed(EACCES);
      assert longer[i] == tried[i];
    }
    assert forall i | 0 <= i < |tried| :: longer[i] == tried[i];
  }

  /** Every pathname is tried once, in order, until one runs. If none does, the
      error is EACCES if any of them gave it, else that of the last. */
  ghost predicate Searched(exec: Exec, shell: Shell, names: seq<string>, tried: seq<string>, r: Answer) {
    && tried <= names && tried != []
    && var last := |tried| - 1;
       if r.Done? then Runs(exec, shell, last, tried[last]) && NoneRuns(exec, shell, tried[..last])
       else
         && tried == names && NoneRuns(exec, shell, names)
         && if AccessDenied(exec, names) then r.errno == EACCES else r == exec(last, names[last])
  }

  lemma {:induction false} OneRuns(p: string, filename: string, exec: Exec, shell: Shell, tried: seq<string>,
      fndEACCES: bool, savedErrno: Errno, name: string)
    requires AllFailed(exec, shell, tried, fndEACCES, savedErrno) && Runs(exec, shell, |tried|, name)
    requires tried + [name] <= Candidates(Split(p, IsColon), filename)
    ensures Searched(exec, shell, Candidates(Split(p, IsColon), filename), tried + [name], Done)
  {
    assert (tried + [name])[..|tried|] == tried;
  }

  lemma {:induction false} NothingRuns(p: string, filename: string, exec: Exec, shell: Shell, done: nat,
      tried: seq<string>, start: nat, fndEACCES: bool, savedErrno: Errno)
    requires AllFailed(exec, shell, tried, fndEACCES, savedErrno)
    requires Position(p, filename, done, tried, start, false)
    ensures Searched(exec, shell, Candidates(Split(p, IsColon), filename), tried,
                     Failed(if fndEACCES then EACCES else savedErrno))
  {
    assert Split(p, IsColon)[..done] == Split(p, IsColon);
  }

  method Execlp(filename: string, path: Option<string>, exec: Exec, shell: Shell)
    returns (r: Answer, tried: seq<string>)
    requires Free(filename, IsNul) && (path.Some? ==> Free(path.value, IsNul))
    ensures Searched(exec, shell, Pathnames(filename, path), tried, r)
    ensures var names := Pathnames(filename, path);
            && (r == Done <==>
                  exists i | 0 <= i < |names| ::
                    exec(i, names[i]) == Done || (exec(i, names[i]) == Failed(ENOEXEC) && shell(i)))
            && (r != Done ==>
                  tried == names
                  && r == if exists i :: 0 <= i < |names| && exec(i, names[i]) == Failed(EACCES) then Failed(EACCES)
                          else exec(|names| - 1, names[|names| - 1]))
  {
    if '/' in filename {
      tried := [filename];
      r := exec(0, filename);
      if r == Failed(ENOEXEC) && shell(0) {
        r := Done;
      }
    } else {
      r, tried := SearchAlong(filename, SearchPath(path), exec, shell);
    }
  }

  method SearchAlong(filename: string, p: string, exec: Exec, shell: Shell) returns (r: Answer, tried: seq<string>)
    requires Free(filename, IsNul) && Free(p, IsNul)
    ensures Searched(exec, shell, Candidates(Split(p, IsColon), filename), tried, r)
  {
    hide Position, Candidates, AllFailed, NoneRuns, AccessDenied, Candidate, Split, Free, Searched;
    var prStart, morePrefixes := 0, true;
    var fndEACCES, savedErrno := false, OtherError(0);
    ghost var done := 0;
    tried := [];
    AtTheStart(p, filename, exec, shell, savedErrno);
    while morePrefixes
      invariant prStart <= |p|
      invariant Position(p, filename, done, tried, prStart, morePrefixes)
      invariant AllFailed(exec, shell, tried, fndEACCES, savedErrno)
      decreases |Split(p, IsColon)| - done
    {
      var prEnd := PrefixEnd(p, prStart);
      OnePrefixOn(p, filename, done, tried, prStart, prEnd);
      var pathname, answer := Attempt(p, prStart, prEnd, filename, exec, |tried|);
      if prEnd == |p| {
        morePrefixes := false;
      } else {
        prStart := prEnd + 1;
      }
      ghost var before, flag, saved := tried, fndEACCES, savedErrno;
      tried := tried + [pathname];
      done := done + 1;
      if answer.Done? {
        OneRuns(p, filename, exec, shell, before, flag, saved, pathname);
        return Done, tried;
      }
      savedErrno := answer.errno;
      if savedErrno == EACCES {
        fndEACCES := true;
      } else if savedErrno == ENOEXEC {
        if shell(|tried| - 1) {
          OneRuns(p, filename, exec, shell, before, flag, saved, pathname);
          return Done, tried;
        }
      }
      OneMoreFailed(exec, shell, before, flag, saved, pathname);
    }
    NothingRuns(p, filename, exec, shell, done, tried, prStart, fndEACCES, savedErrno);
    r := Failed(if fndEACCES then EACCES else savedErrno);
  }
}
