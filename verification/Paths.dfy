/** Slash paths: splitting, joining, cleaning, and the check that a backup's manifest paths must pass. */
module Paths {
  function Join(segments: seq<string>): string {
    if |segments| == 0 then ""
    else if |segments| == 1 then segments[0]
    else segments[0] + "/" + Join(segments[1..])
  }

  function Split(p: string): (r: seq<string>)
    ensures |r| > 0
  {
    if p == "" then [""] else Glue(p[0], Split(p[1..]))
  }

  /** The segments once one more character stands in front. */
  function Glue(c: char, rest: seq<string>): (r: seq<string>)
    requires |rest| > 0
    ensures |r| > 0
  {
    if c == '/' then [""] + rest else [[c] + rest[0]] + rest[1..]
  }

  lemma GlueAppend(c: char, rest: seq<string>, more: seq<string>)
    requires |rest| > 0
    ensures Glue(c, rest + more) == Glue(c, rest) + more
  {
    if c == '/' {
      assert [""] + (rest + more) == [""] + rest + more;
    } else {
      assert (rest + more)[0] == rest[0] && (rest + more)[1..] == rest[1..] + more;
      assert [[c] + rest[0]] + (rest[1..] + more) == [[c] + rest[0]] + rest[1..] + more;
    }
  }

  predicate NoSlash(s: string) { '/' !in s }

  predicate AllNoSlash(segments: seq<string>) { forall i | 0 <= i < |segments| :: NoSlash(segments[i]) }

  lemma {:induction false} SplitParts(p: string)
    ensures AllNoSlash(Split(p)) && Join(Split(p)) == p
  {
    if p == "" {
    } else {
      SplitParts(p[1..]);
      var rest := Split(p[1..]);
      if p[0] == '/' {
        assert ([""] + rest)[1..] == rest;
      } else {
        var r := [[p[0]] + rest[0]] + rest[1..];
        assert r[1..] == rest[1..];
        assert Join(r) == [p[0]] + Join(rest);
      }
    }
  }

  lemma {:induction false} SplitAppend(a: string, b: string)
    ensures Split(a + "/" + b) == Split(a) + Split(b)
  {
    var ab := a + "/" + b;
    if a == "" {
      assert ab[1..] == b;
    } else {
      SplitAppend(a[1..], b);
      assert ab[1..] == a[1..] + "/" + b && ab[0] == a[0];
      GlueAppend(a[0], Split(a[1..]), Split(b));
    }
  }

  lemma {:induction false} SplitOne(s: string)
    requires NoSlash(s)
    ensures Split(s) == [s]
  {
    if s != "" {
      assert s[0] in s;
      SplitOne(s[1..]);
      assert [s[0]] + s[1..] == s;
    }
  }

  lemma {:induction false} SplitJoin(segments: seq<string>)
    requires |segments| > 0 && AllNoSlash(segments)
    ensures Split(Join(segments)) == segments
  {
    SplitOne(segments[0]);
    if |segments| <= 1 {
    } else {
      SplitAppend(segments[0], Join(segments[1..]));
      SplitJoin(segments[1..]);
    }
  }

  /** A segment that path cleaning leaves alone wherever it stands. */
  predicate Plain(segment: string) { segment != "" && segment != "." && segment != ".." && NoSlash(segment) }

  predicate AllPlain(segments: seq<string>) { forall i | 0 <= i < |segments| :: Plain(segments[i]) }

  /** One segment of path cleaning: empty and "." go, ".." takes the segment before it away. */
  function Push(rooted: bool, out: seq<string>, segment: string): seq<string> {
    if segment == "" || segment == "." then out
    else if segment == ".." then
      if |out| > 0 && out[|out| - 1] != ".." then out[..|out| - 1]
      else if rooted then out
      else out + [".."]
    else out + [segment]
  }

  function Reduce(rooted: bool, segments: seq<string>): seq<string> {
    if |segments| == 0 then []
    else Push(rooted, Reduce(rooted, segments[..|segments| - 1]), segments[|segments| - 1])
  }

  /** Go's path.Clean. */
  function Clean(p: string): string {
    var rooted := p != "" && p[0] == '/';
    var body := Join(Reduce(rooted, Split(p)));
    if rooted then "/" + body else if body == "" then "." else body
  }

  function Normalise(p: string): (r: string)
    ensures |r| == |p|
  {
    seq(|p|, i requires 0 <= i < |p| => if p[i] == '\\' then '/' else p[i])
  }

  predicate HasPrefix(s: string, prefix: string) { |s| >= |prefix| && s[..|prefix|] == prefix }

  predicate ValidRelativePath(p: string) {
    var normalised := Normalise(p);
    var clean := Clean(normalised);
    !(p == "" || HasPrefix(normalised, "/") || clean != normalised || clean == ".." || HasPrefix(clean, "../")
      || (|clean| >= 2 && clean[1] == ':'))
  }

  // ---- What the check accepts ----

  /** What cleaning keeps: plain segments after any leading "..". */
  predicate Reduced(out: seq<string>) {
    forall i | 0 <= i < |out| :: Plain(out[i]) || (out[i] == ".." && (i == 0 || out[i - 1] == ".."))
  }

  lemma PushShape(out: seq<string>, segment: string)
    requires Reduced(out) && NoSlash(segment)
    ensures Reduced(Push(false, out, segment))
  {
  }

  lemma {:induction false} ReduceShape(segments: seq<string>)
    requires AllNoSlash(segments)
    ensures Reduced(Reduce(false, segments))
  {
    if |segments| == 0 {
    } else {
      var init := segments[..|segments| - 1];
      assert forall i | 0 <= i < |init| :: init[i] == segments[i];
      ReduceShape(init);
      PushShape(Reduce(false, init), segments[|segments| - 1]);
    }
  }

  lemma {:induction false} ReducePlain(segments: seq<string>)
    requires AllPlain(segments)
    ensures Reduce(false, segments) == segments
  {
    if |segments| == 0 {
    } else {
      var init := segments[..|segments| - 1];
      assert forall i | 0 <= i < |init| :: init[i] == segments[i];
      ReducePlain(init);
    }
  }

  lemma {:induction false} DotDotLeads(out: seq<string>, i: nat)
    requires Reduced(out) && i < |out| && out[i] == ".."
    ensures out[0] == ".."
  {
    if i > 0 {
      DotDotLeads(out, i - 1);
    }
  }

  lemma ReducedPlain(out: seq<string>, n: string)
    requires Reduced(out) && Join(out) == n && n != "" && n != ".." && !HasPrefix(n, "../")
    ensures |out| > 0 && AllPlain(out)
  {
    if i :| 0 <= i < |out| && out[i] == ".." {
      DotDotLeads(out, i);
    }
  }

  /** A clean relative path that does not climb is "." or has only plain segments. */
  lemma CleanMeansPlain(n: string)
    requires n != "" && n[0] != '/' && Clean(n) == n && n != "." && n != ".." && !HasPrefix(n, "../")
    ensures AllPlain(Split(n))
  {
    SplitParts(n);
    var out := Reduce(false, Split(n));
    ReduceShape(Split(n));
    ReducedPlain(out, n);
    SplitJoin(out);
  }

  lemma FirstSegment(first: string, n: string)
    requires NoSlash(first) && HasPrefix(n, first + "/")
    ensures Split(n)[0] == first
  {
    var rest := n[|first| + 1..];
    assert n == first + "/" + rest;
    SplitAppend(first, rest);
    SplitOne(first);
  }

  lemma PlainMeansClean(n: string)
    requires AllPlain(Split(n))
    ensures n != "" && n[0] != '/' && Clean(n) == n && n != ".." && !HasPrefix(n, "../")
  {
    SplitParts(n);
    var segments := Split(n);
    assert segments[0] != "" && segments[0] != "..";
    ReducePlain(segments);
    SplitOne("..");
    if HasPrefix(n, "../") {
      FirstSegment("..", n);
    }
  }

  lemma NormaliseDot(p: string)
    ensures Normalise(p) == "." <==> p == "."
  {
    if |p| == 1 {
      assert Normalise(p)[0] == if p[0] == '\\' then '/' else p[0];
    }
  }

  /** The check, read off the path: with backslashes as slashes, no segment is empty, "." or "..". */
  lemma ValidExactly(p: string)
    ensures ValidRelativePath(p) <==> p == "." || (AllPlain(Split(Normalise(p))) && !(|p| >= 2 && p[1] == ':'))
  {
    var n := Normalise(p);
    if p == "." {
      assert n == ".";
      SplitOne(".");
      assert Reduce(false, ["."]) == [];
    } else {
      NormaliseDot(p);
      if ValidRelativePath(p) {
        CleanMeansPlain(n);
      }
      if AllPlain(Split(n)) {
        PlainMeansClean(n);
        assert |p| >= 2 ==> (n[1] == ':' <==> p[1] == ':');
      }
    }
  }

  /** A file path whose every segment, split at backslashes as well, is plain. */
  predicate SafePath(path: seq<string>) { forall i | 0 <= i < |path| :: AllPlain(Split(Normalise(path[i]))) }

  lemma NormaliseAppend(a: string, b: string)
    ensures Normalise(a + b) == Normalise(a) + Normalise(b)
  {
  }

  lemma {:induction false} SafeJoin(path: seq<string>)
    requires |path| > 0
    ensures AllPlain(Split(Normalise(Join(path)))) <==> SafePath(path)
  {
    if |path| <= 1 {
    } else {
      var rest := path[1..];
      SafeJoin(rest);
      NormaliseAppend(path[0] + "/", Join(rest));
      NormaliseAppend(path[0], "/");
      assert Normalise("/") == "/";
      SplitAppend(Normalise(path[0]), Normalise(Join(rest)));
      var left, right := Split(Normalise(path[0])), Split(Normalise(Join(rest)));
      PlainAppend(left, right);
      assert SafePath(path) <==> AllPlain(left) && SafePath(rest) by {
        assert forall i | 0 <= i < |rest| :: rest[i] == path[i + 1];
        assert forall i | 1 <= i < |path| :: path[i] == rest[i - 1];
      }
    }
  }

  lemma PlainAppend(a: seq<string>, b: seq<string>)
    ensures AllPlain(a + b) <==> AllPlain(a) && AllPlain(b)
  {
    assert forall i | 0 <= i < |b| :: (a + b)[|a| + i] == b[i];
    assert forall i | 0 <= i < |a| :: (a + b)[i] == a[i];
  }

  lemma JoinInjective(a: seq<string>, b: seq<string>)
    requires |a| > 0 && |b| > 0 && AllNoSlash(a) && AllNoSlash(b) && Join(a) == Join(b)
    ensures a == b
  {
    SplitJoin(a);
    SplitJoin(b);
  }
}
