/**
 * Path handling shared by both routers: `#splitPath` / `_splitPath` and
 * `#getUrlParamName` / `_getUrlParamName`.
 */
module Paths {
  import opened Wrappers

  /**
   * JavaScript's `s.split('/')`: the pieces between slashes, in order, empty
   * pieces included. There is always at least one piece.
   */
  function Split(s: string): (pieces: seq<string>)
    ensures |pieces| >= 1
    ensures forall i :: 0 <= i < |pieces| ==> '/' !in pieces[i]
  {
    if s == [] then [""]
    else
      var rest := Split(s[1..]);
      if s[0] == '/' then [""] + rest
      else [[s[0]] + rest[0]] + rest[1..]
  }

  /** JavaScript's `pieces.join('/')`. */
  function Join(pieces: seq<string>): string
    requires |pieces| >= 1
  {
    if |pieces| == 1 then pieces[0] else pieces[0] + "/" + Join(pieces[1..])
  }

  /** `filter(Boolean)` on strings: drops the empty ones, keeps the order. */
  function NonEmpty(pieces: seq<string>): (kept: seq<string>)
    ensures forall i :: 0 <= i < |kept| ==> kept[i] != "" && kept[i] in pieces
    ensures |kept| <= |pieces|
  {
    if pieces == [] then []
    else if pieces[0] == "" then NonEmpty(pieces[1..])
    else [pieces[0]] + NonEmpty(pieces[1..])
  }

  /** `#splitPath(path)`: `path.split('/').filter(Boolean)`. */
  function SplitPath(path: string): (segments: seq<string>)
    ensures AreSegments(segments)
  {
    NonEmpty(Split(path))
  }

  /** The canonical path of a list of segments: "/a/b/c" for ["a", "b", "c"]. */
  function PathOf(segments: seq<string>): string
  {
    if segments == [] then "" else "/" + segments[0] + PathOf(segments[1..])
  }

  /** Segments as `#splitPath` produces them: non-empty and slash-free. */
  ghost predicate AreSegments(segments: seq<string>)
  {
    forall i :: 0 <= i < |segments| ==> segments[i] != "" && '/' !in segments[i]
  }

  /** Joining the pieces of a split gives the original string back. */
  lemma {:induction false} JoinSplit(s: string)
    ensures Join(Split(s)) == s
  {
    if s != [] {
      JoinSplit(s[1..]);
      var rest := Split(s[1..]);
      if s[0] != '/' && |rest| > 1 {
        assert Join(rest) == rest[0] + "/" + Join(rest[1..]);
        assert rest[1..][1..] == rest[2..];
      }
    }
  }

  /** Splitting joined slash-free pieces gives the pieces back. */
  lemma {:induction false} SplitJoin(pieces: seq<string>)
    requires |pieces| >= 1
    requires forall i :: 0 <= i < |pieces| ==> '/' !in pieces[i]
    ensures Split(Join(pieces)) == pieces
  {
    if |pieces| == 1 {
      SplitSlashFree(pieces[0]);
    } else {
      SplitJoin(pieces[1..]);
      SplitConcat(pieces[0], Join(pieces[1..]));
      SplitSlashFree(pieces[0]);
    }
  }

  /** A slash-free string splits into itself. */
  lemma {:induction false} SplitSlashFree(s: string)
    requires '/' !in s
    ensures Split(s) == [s]
  {
    if s != [] {
      assert s[0] in s;
      assert forall c :: c in s[1..] ==> c in s;
      SplitSlashFree(s[1..]);
      assert [s[0]] + s[1..] == s;
    }
  }

  /** A slash splits the pieces on its left from the pieces on its right. */
  lemma {:induction false} SplitConcat(a: string, b: string)
    ensures Split(a + "/" + b) == Split(a) + Split(b)
  {
    if a == [] {
      assert a + "/" + b == "/" + b;
      assert ("/" + b)[1..] == b;
    } else {
      assert (a + "/" + b)[0] == a[0];
      assert (a + "/" + b)[1..] == a[1..] + "/" + b;
      SplitConcat(a[1..], b);
    }
  }

  /** `filter` distributes over concatenation. */
  lemma {:induction false} NonEmptyConcat(p: seq<string>, q: seq<string>)
    ensures NonEmpty(p + q) == NonEmpty(p) + NonEmpty(q)
  {
    if p == [] {
      assert p + q == q;
    } else {
      assert (p + q)[0] == p[0];
      assert (p + q)[1..] == p[1..] + q;
      NonEmptyConcat(p[1..], q);
    }
  }

  /** A slash separates the segments on its left from those on its right. */
  lemma SplitPathConcat(a: string, b: string)
    ensures SplitPath(a + "/" + b) == SplitPath(a) + SplitPath(b)
  {
    SplitConcat(a, b);
    NonEmptyConcat(Split(a), Split(b));
  }

  /** Leading, trailing and doubled slashes contribute no segment. */
  lemma ExtraSlashes(a: string, b: string)
    ensures SplitPath("/" + b) == SplitPath(b)
    ensures SplitPath(a + "/") == SplitPath(a)
    ensures SplitPath(a + "//" + b) == SplitPath(a + "/" + b)
  {
    assert SplitPath([]) == [];
    SplitPathConcat([], b);
    assert [] + "/" + b == "/" + b;
    SplitPathConcat(a, []);
    assert a + "/" + [] == a + "/";
    calc {
      SplitPath(a + "//" + b);
      { assert a + "//" + b == a + "/" + ("/" + b); }
      SplitPath(a + "/" + ("/" + b));
      { SplitPathConcat(a, "/" + b); }
      SplitPath(a) + SplitPath("/" + b);
      SplitPath(a) + SplitPath(b);
      { SplitPathConcat(a, b); }
      SplitPath(a + "/" + b);
    }
  }

  /** `#splitPath` returns exactly the segments of their canonical path. */
  lemma {:induction false} SplitPathOf(segments: seq<string>)
    requires AreSegments(segments)
    ensures SplitPath(PathOf(segments)) == segments
  {
    if segments != [] {
      var rest := segments[1..];
      SplitPathOf(rest);
      SplitPathConcat([], segments[0] + PathOf(rest));
      assert PathOf(segments) == [] + "/" + (segments[0] + PathOf(rest));
      if rest == [] {
        assert segments[0] + PathOf(rest) == segments[0];
        SplitSlashFree(segments[0]);
      } else {
        assert PathOf(rest) == "/" + rest[0] + PathOf(rest[1..]);
        var tail := rest[0] + PathOf(rest[1..]);
        assert segments[0] + PathOf(rest) == segments[0] + "/" + tail;
        SplitPathConcat(segments[0], tail);
        SplitPathConcat([], tail);
        assert [] + "/" + tail == PathOf(rest);
        SplitSlashFree(segments[0]);
      }
    }
  }

  /** `#getUrlParamName`: the segment minus its leading `:`, if it has one. */
  function GetUrlParamName(segment: string): (name: Option<string>)
    ensures name.Some? <==> |segment| > 0 && segment[0] == ':'
    ensures name.Some? ==> segment == ":" + name.value
  {
    if |segment| > 0 && segment[0] == ':' then Some(segment[1..]) else None
  }

  /** JavaScript truthiness of a `string | null | undefined`. */
  function Truthy(s: Option<string>): (r: bool)
    ensures r <==> s != None && s != Some("")
  {
    s.Some? && s.value != ""
  }

  /**
   * Whether `#add` treats a segment as a parameter declaration: its
   * parameter name must be truthy, so a bare `:` is a literal.
   */
  function IsParamSegment(segment: string): (r: bool)
    ensures r <==> |segment| >= 2 && segment[0] == ':'
  {
    Truthy(GetUrlParamName(segment))
  }

  /** A parameter segment names the parameter after its colon. */
  lemma ParamSegmentShape(segment: string)
    ensures IsParamSegment(segment) ==> GetUrlParamName(segment) == Some(segment[1..])
  {
  }

  /** `:name` declares the parameter `name`; a bare `:` is a literal segment. */
  lemma ParamNameRoundTrip(name: string)
    ensures GetUrlParamName(":" + name) == Some(name)
    ensures IsParamSegment(":" + name) <==> name != ""
  {
    assert (":" + name)[1..] == name;
  }
}
