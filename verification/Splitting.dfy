/** Splitting text at separator characters, and joining it again. */
module Splitting {
  /** The pieces between separators; always at least one, possibly empty. */
  function Split(s: string, sep: char -> bool): (pieces: seq<string>)
    ensures |pieces| > 0
  {
    if s == "" then [""]
    else
      var rest := Split(s[1..], sep);
      if sep(s[0]) then [""] + rest else [[s[0]] + rest[0]] + rest[1..]
  }

  function Join(pieces: seq<string>, c: char): string
    requires |pieces| > 0
  {
    if |pieces| == 1 then pieces[0] else Join(pieces[..|pieces| - 1], c) + [c] + pieces[|pieces| - 1]
  }

  ghost predicate Free(s: string, sep: char -> bool) {
    forall c | c in s :: !sep(c)
  }

  lemma {:induction false} SplitFree(s: string, sep: char -> bool)
    requires Free(s, sep)
    ensures Split(s, sep) == [s]
  {
    if s != "" {
      SplitFree(s[1..], sep);
      assert s[0] in s;
      assert s == [s[0]] + s[1..];
    }
  }

  lemma {:induction false} SplitConcat(a: string, c: char, b: string, sep: char -> bool)
    requires sep(c)
    ensures Split(a + [c] + b, sep) == Split(a, sep) + Split(b, sep)
  {
    var s := a + [c] + b;
    if a == "" {
      assert s[1..] == b;
    } else {
      assert s[1..] == a[1..] + [c] + b;
      SplitConcat(a[1..], c, b, sep);
    }
  }

  lemma {:induction false} SplitFreeOfSeparators(s: string, sep: char -> bool)
    ensures forall p | p in Split(s, sep) :: Free(p, sep)
  {
    if s != "" {
      SplitFreeOfSeparators(s[1..], sep);
      var rest := Split(s[1..], sep);
      assert rest[0] in rest;
      assert forall p | p in rest[1..] :: p in rest;
    }
  }

  /** Joining undoes splitting and, for pieces free of the separator, splitting
      undoes joining. */
  lemma {:induction false} SplitThenJoin(s: string, c: char, sep: char -> bool)
    requires forall d :: sep(d) <==> d == c
    ensures Join(Split(s, sep), c) == s
  {
    if s != "" {
      SplitThenJoin(s[1..], c, sep);
      var rest := Split(s[1..], sep);
      if sep(s[0]) {
        JoinCons("", rest, c);
      } else {
        JoinHead([s[0]], rest, c);
      }
    }
  }

  lemma {:induction false} JoinCons(p: string, rest: seq<string>, c: char)
    requires |rest| > 0
    ensures Join([p] + rest, c) == p + [c] + Join(rest, c)
  {
    var all := [p] + rest;
    assert all[..|all| - 1] == [p] + rest[..|rest| - 1];
    if |rest| == 1 {
      assert all[..1] == [p];
    } else {
      JoinCons(p, rest[..|rest| - 1], c);
    }
  }

  lemma {:induction false} JoinHead(p: string, rest: seq<string>, c: char)
    requires |rest| > 0
    ensures Join([p + rest[0]] + rest[1..], c) == p + Join(rest, c)
  {
    if |rest| == 1 {
      assert [p + rest[0]] + rest[1..] == [p + rest[0]];
    } else {
      JoinCons(p + rest[0], rest[1..], c);
      assert rest == [rest[0]] + rest[1..];
      JoinCons(rest[0], rest[1..], c);
    }
  }

  lemma {:induction false} JoinThenSplit(pieces: seq<string>, c: char, sep: char -> bool)
    requires |pieces| > 0 && sep(c) && forall p | p in pieces :: Free(p, sep)
    ensures Split(Join(pieces, c), sep) == pieces
  {
    var init, last := pieces[..|pieces| - 1], pieces[|pieces| - 1];
    SplitFree(last, sep);
    if |pieces| > 1 {
      assert forall p | p in init :: p in pieces;
      JoinThenSplit(init, c, sep);
      SplitConcat(Join(init, c), c, last, sep);
    }
  }
}
