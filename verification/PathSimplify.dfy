/**
 The path normaliser: one pass with a read and a write pointer, usable in place, against a
 stack of path components and against the algorithm of section 5.2.4 of RFC 3986.
 */
module PathSimplify {
  import opened Seqs

  type Path = seq<char>

  /** Where the first '/' is, or the length. */
  function FirstSlash(s: Path): (i: nat)
    ensures i <= |s| && (i < |s| ==> s[i] == '/')
    ensures forall j :: 0 <= j < i ==> s[j] != '/'
  {
    if s == "" || s[0] == '/' then 0
    else
      var i := 1 + FirstSlash(s[1..]);
      assert forall j :: 1 <= j < i ==> s[j] == s[1..][j - 1];
      i
  }

  /** Segments that name no component. */
  predicate Special(seg: Path) { seg == "" || seg == "." || seg == ".." }

  /** What a segment does to the components so far. */
  function Push(stack: seq<Path>, seg: Path): seq<Path> {
    if seg == ".." then (if stack == [] then [] else stack[..|stack| - 1])
    else if Special(seg) then stack
    else stack + [seg]
  }

  function Render(stack: seq<Path>): Path {
    if stack == [] then "" else Render(stack[..|stack| - 1]) + ("/" + stack[|stack| - 1])
  }

  /** The end of the path: a segment without a component leaves a trailing '/'. */
  function Close(stack: seq<Path>, seg: Path): Path {
    Render(Push(stack, seg)) + (if Special(seg) then "/" else "")
  }

  /** Works off the text after a '/', segment by segment. */
  function Norm(stack: seq<Path>, s: Path): Path
    decreases |s|
  {
    var i := FirstSlash(s);
    if i == |s| then Close(stack, s) else Norm(Push(stack, s[..i]), s[i + 1..])
  }

  /** The text without leading spaces. */
  function Strip(p: Path): Path {
    if p != "" && p[0] == ' ' then Strip(p[1..]) else p
  }

  /** The text behind the leading '/', which may be missing. */
  function Rooted(s: Path): Path {
    if s != "" && s[0] == '/' then s[1..] else s
  }

  function Simplify(p: Path): Path {
    if p == "" then "" else Norm([], Rooted(Strip(p)))
  }

  // ---------- normal form ----------

  predicate Component(seg: Path) { !Special(seg) && '/' !in seg }

  predicate Components(stack: seq<Path>) {
    forall i :: 0 <= i < |stack| ==> Component(stack[i])
  }

  /** A rooted path of components, with or without a trailing '/'. */
  ghost predicate Normal(r: Path) {
    exists stack: seq<Path> :: Components(stack) &&
      ((r == Render(stack) && stack != []) || r == Render(stack) + "/")
  }

  lemma PushComponents(stack: seq<Path>, seg: Path)
    requires Components(stack) && '/' !in seg
    ensures Components(Push(stack, seg))
  {
  }

  lemma CloseNormal(stack: seq<Path>, seg: Path)
    requires Components(stack) && '/' !in seg
    ensures Normal(Close(stack, seg))
  {
    PushComponents(stack, seg);
    if !Special(seg) {
      assert Close(stack, seg) == Render(stack + [seg]);
      assert Components(stack + [seg]);
    }
  }

  lemma {:induction false} NormNormal(stack: seq<Path>, s: Path)
    requires Components(stack)
    ensures Normal(Norm(stack, s))
    decreases |s|
  {
    var i := FirstSlash(s);
    if i == |s| {
      CloseNormal(stack, s);
    } else {
      PushComponents(stack, s[..i]);
      NormNormal(Push(stack, s[..i]), s[i + 1..]);
    }
  }

  lemma FirstSlashAfter(seg: Path, rest: Path)
    requires '/' !in seg
    ensures FirstSlash(seg) == |seg|
    ensures FirstSlash(seg + "/" + rest) == |seg|
  {
    var s := seg + "/" + rest;
    assert s[|seg|] == '/';
    assert forall j :: 0 <= j < |seg| ==> s[j] == seg[j];
  }

  /** A segment followed by '/' is worked off in one step. */
  lemma NormSegment(stack: seq<Path>, seg: Path, rest: Path)
    requires '/' !in seg
    ensures Norm(stack, seg + "/" + rest) == Norm(Push(stack, seg), rest)
    ensures Norm(stack, seg) == Close(stack, seg)
  {
    FirstSlashAfter(seg, rest);
    var s := seg + "/" + rest;
    assert s[..|seg|] == seg && s[|seg| + 1..] == rest;
  }

  /** Components written out behind a '/', each followed by one. */
  function Spread(stack: seq<Path>): Path {
    if stack == [] then "" else stack[0] + "/" + Spread(stack[1..])
  }

  lemma {:induction false} NormSpread(stack: seq<Path>, more: seq<Path>, rest: Path)
    requires Components(stack) && Components(more)
    ensures Norm(stack, Spread(more) + rest) == Norm(stack + more, rest)
    decreases |more|
  {
    if more == [] {
      assert Spread(more) + rest == rest && stack + more == stack;
    } else {
      var c, tail := more[0], more[1..];
      NormSegment(stack, c, Spread(tail) + rest);
      Assoc(c + "/", Spread(tail), rest);
      assert Push(stack, c) == stack + [c];
      PushComponents(stack, c);
      NormSpread(stack + [c], tail, rest);
      Assoc(stack, [c], tail);
      HeadOut(more, []);
      assert more + [] == more && tail + [] == tail;
    }
  }

  lemma {:induction false} RenderSpread(stack: seq<Path>)
    ensures Render(stack) + "/" == "/" + Spread(stack)
  {
    if stack != [] {
      var front, last := stack[..|stack| - 1], stack[|stack| - 1];
      RenderSpread(front);
      SpreadSnoc(front, last);
      assert front + [last] == stack;
      assert Render(stack) + "/" == (Render(front) + "/") + (last + "/");
      assert "/" + Spread(front) + (last + "/") == "/" + (Spread(front) + (last + "/"));
    }
  }

  lemma {:induction false} SpreadSnoc(front: seq<Path>, last: Path)
    ensures Spread(front + [last]) == Spread(front) + (last + "/")
  {
    if front == [] {
      assert [last][1..] == [] && last + "/" + "" == last + "/";
      assert [] + [last] == [last] && "" + (last + "/") == last + "/";
    } else {
      SpreadSnoc(front[1..], last);
      assert (front + [last])[1..] == front[1..] + [last];
      var a, b, c := front[0] + "/", Spread(front[1..]), last + "/";
      assert a + (b + c) == a + b + c;
    }
  }

  lemma Unroot(s: Path)
    ensures Simplify("/" + s) == Norm([], s)
  {
    var r := "/" + s;
    assert r[0] == '/' && r[1..] == s;
  }

  lemma NormKeepsOpen(stack: seq<Path>)
    requires Components(stack)
    ensures Simplify(Render(stack) + "/") == Render(stack) + "/"
  {
    RenderSpread(stack);
    Unroot(Spread(stack));
    NormSpread([], stack, "");
    assert Spread(stack) + "" == Spread(stack) && [] + stack == stack;
    NormSegment(stack, "", "");
  }

  lemma NormKeepsClosed(stack: seq<Path>)
    requires Components(stack) && stack != []
    ensures Simplify(Render(stack)) == Render(stack)
  {
    var front, last := stack[..|stack| - 1], stack[|stack| - 1];
    RenderSpread(front);
    Assoc(Render(front), "/", last);
    Assoc("/", Spread(front), last);
    Unroot(Spread(front) + last);
    NormSpread([], front, last);
    assert [] + front == front;
    NormSegment(front, last, "");
    LastOut(stack);
    assert Render(stack) + "" == Render(stack);
  }

  /** The paths that stay as they are are exactly the empty one and those in normal form. */
  lemma Fixpoints(p: Path)
    ensures Simplify(p) == p <==> p == "" || Normal(p)
  {
    if Normal(p) {
      var stack :| Components(stack) && ((p == Render(stack) && stack != []) || p == Render(stack) + "/");
      if p == Render(stack) + "/" { NormKeepsOpen(stack); } else { NormKeepsClosed(stack); }
    } else if p != "" {
      NormNormal([], Rooted(Strip(p)));
    }
  }

  lemma SimplifyNormal(p: Path)
    ensures Simplify(p) == "" <==> p == ""
    ensures p != "" ==> Normal(Simplify(p)) && Simplify(p)[0] == '/'
  {
    if p != "" {
      NormNormal([], Rooted(Strip(p)));
      var r := Simplify(p);
      var stack :| Components(stack) && ((r == Render(stack) && stack != []) || r == Render(stack) + "/");
      RenderSpread(stack);
      if r == Render(stack) { assert r[0] == (r + "/")[0]; }
    }
  }

  lemma Idempotent(p: Path)
    ensures Simplify(Simplify(p)) == Simplify(p)
  {
    SimplifyNormal(p);
    Fixpoints(Simplify(p));
  }

  // ---------- section 5.2.4 of RFC 3986 ----------

  /** Drops the last segment and the '/' before it. */
  function RemoveLast(output: Path): Path {
    if output == "" then ""
    else if output[|output| - 1] == '/' then output[..|output| - 1]
    else RemoveLast(output[..|output| - 1])
  }

  predicate StartsWith(s: Path, prefix: Path) { |prefix| <= |s| && s[..|prefix|] == prefix }

  /** The length of the first segment, with its leading '/' if there is one. */
  function SegmentLength(input: Path): (n: nat)
    requires input != ""
    ensures 0 < n <= |input|
  {
    if input[0] == '/' then 1 + FirstSlash(input[1..]) else FirstSlash(input)
  }

  /** remove_dot_segments, rules A to E. */
  function RemoveDots(input: Path, output: Path): Path
    decreases |input|
  {
    if input == "" then output
    else if StartsWith(input, "../") then RemoveDots(input[3..], output)
    else if StartsWith(input, "./") then RemoveDots(input[2..], output)
    else if StartsWith(input, "/./") then RemoveDots("/" + input[3..], output)
    else if input == "/." then RemoveDots("/", output)
    else if StartsWith(input, "/../") then RemoveDots("/" + input[4..], RemoveLast(output))
    else if input == "/.." then RemoveDots("/", RemoveLast(output))
    else if input == "." || input == ".." then RemoveDots("", output)
    else
      var n := SegmentLength(input);
      RemoveDots(input[n..], output + input[..n])
  }

  /** Every run of '/' becomes one. */
  function Collapse(s: Path): (r: Path)
    ensures s != "" ==> r != "" && r[0] == s[0]
  {
    if |s| < 2 then s
    else if s[0] == '/' && s[1] == '/' then Collapse(s[1..])
    else [s[0]] + Collapse(s[1..])
  }

  lemma {:induction false} RemoveLastSegment(out: Path, seg: Path)
    requires '/' !in seg
    ensures RemoveLast(out + ("/" + seg)) == out
    decreases |seg|
  {
    var s := out + ("/" + seg);
    if seg == "" {
      assert s[..|s| - 1] == out;
    } else {
      assert s[|s| - 1] == seg[|seg| - 1];
      assert s[..|s| - 1] == out + ("/" + seg[..|seg| - 1]);
      RemoveLastSegment(out, seg[..|seg| - 1]);
    }
  }

  lemma RemoveLastRender(stack: seq<Path>)
    requires Components(stack)
    ensures RemoveLast(Render(stack)) == Render(Push(stack, ".."))
  {
    if stack != [] { RemoveLastSegment(Render(stack[..|stack| - 1]), stack[|stack| - 1]); }
  }

  /** A rooted segment, up to the end or the next '/'. */
  lemma SegmentOf(seg: Path, rest: Path)
    requires '/' !in seg && (rest == "" || rest[0] == '/')
    ensures SegmentLength("/" + seg + rest) == 1 + |seg|
    ensures ("/" + seg + rest)[1 + |seg|..] == rest && ("/" + seg + rest)[..1 + |seg|] == "/" + seg
  {
    var input := "/" + seg + rest;
    var t := seg + rest;
    assert input[1..] == t;
    assert forall j :: 0 <= j < |seg| ==> t[j] == seg[j];
    if rest != "" { assert t[|seg|] == '/'; }
  }

  /** Which rule a rooted segment falls under. */
  lemma Rules(seg: Path, rest: Path)
    requires '/' !in seg && (rest == "" || rest[0] == '/')
    ensures var input := "/" + seg + rest;
      (StartsWith(input, "/./") <==> seg == "." && rest != "") &&
      (input == "/." <==> seg == "." && rest == "") &&
      (StartsWith(input, "/../") <==> seg == ".." && rest != "") &&
      (input == "/.." <==> seg == ".." && rest == "") &&
      !StartsWith(input, "../") && !StartsWith(input, "./") && input != "." && input != ".." && input != ""
  {
    var input := "/" + seg + rest;
    assert input[0] == '/';
    assert forall j :: 0 <= j < |seg| ==> input[j + 1] == seg[j];
    if rest != "" { assert input[|seg| + 1] == '/'; }
    SegmentEquals(seg, rest, ".");
    SegmentEquals(seg, rest, "..");
  }

  lemma SegmentEquals(seg: Path, rest: Path, dots: Path)
    requires '/' !in seg && '/' !in dots && (rest == "" || rest[0] == '/')
    ensures StartsWith("/" + seg + rest, "/" + dots + "/") <==> seg == dots && rest != ""
    ensures "/" + seg + rest == "/" + dots <==> seg == dots && rest == ""
  {
    var input, pat := "/" + seg + rest, "/" + dots + "/";
    assert forall j :: 0 <= j < |seg| ==> input[j + 1] == seg[j];
    assert forall j :: 0 <= j < |dots| ==> pat[j + 1] == dots[j];
    if rest != "" { assert input[|seg| + 1] == '/'; }
    if seg == dots && rest != "" { assert input[..|pat|] == pat; }
    if StartsWith(input, pat) {
      assert pat[|dots| + 1] == '/' && forall j :: 0 <= j < |pat| ==> input[j] == input[..|pat|][j];
      assert |seg| <= |dots|;
      assert |dots| <= |seg|;
      assert seg == dots;
    }
    if input == "/" + dots {
      assert forall j :: 0 <= j < |dots| ==> input[j + 1] == dots[j];
      assert |dots| <= |seg|;
      assert seg == dots;
    }
  }

  /** A rooted segment with more behind it: dot segments vanish, others move to the output. */
  lemma RemoveDotsSegment(stack: seq<Path>, seg: Path, rest: Path)
    requires Components(stack) && '/' !in seg && seg != "" && rest != "" && rest[0] == '/'
    ensures RemoveDots("/" + seg + rest, Render(stack)) == RemoveDots(rest, Render(Push(stack, seg)))
  {
    var input := "/" + seg + rest;
    Rules(seg, rest);
    SegmentOf(seg, rest);
    if seg == "." {
      assert "/" + input[3..] == rest;
    } else if seg == ".." {
      assert "/" + input[4..] == rest;
      RemoveLastRender(stack);
    } else {
      RenderPush(stack, seg);
    }
  }

  lemma RenderPush(stack: seq<Path>, seg: Path)
    ensures Render(stack + [seg]) == Render(stack) + ("/" + seg)
  {
    assert (stack + [seg])[..|stack|] == stack;
  }

  lemma RemoveDotsRoot(output: Path)
    ensures RemoveDots("/", output) == output + "/"
  {
    assert "/"[1..] == "" && "/"[..1] == "/";
  }

  /** The last segment. */
  lemma RemoveDotsLast(stack: seq<Path>, seg: Path)
    requires Components(stack) && '/' !in seg
    ensures RemoveDots("/" + seg, Render(stack)) == Close(stack, seg)
  {
    var input := "/" + seg;
    assert input == "/" + seg + "";
    Rules(seg, "");
    SegmentOf(seg, "");
    if seg == "" {
      assert input == "/";
      RemoveDotsRoot(Render(stack));
    } else if seg == "." {
      RemoveDotsRoot(Render(stack));
    } else if seg == ".." {
      RemoveLastRender(stack);
      RemoveDotsRoot(Render(Push(stack, "..")));
    } else {
      RenderPush(stack, seg);
      assert Render(stack + [seg]) + "" == Render(stack + [seg]);
    }
  }

  lemma {:induction false} CollapseSegment(seg: Path, rest: Path)
    requires '/' !in seg && (rest == "" || rest[0] == '/')
    ensures Collapse(seg + rest) == seg + Collapse(rest)
  {
    if seg == "" {
      assert seg + rest == rest && seg + Collapse(rest) == Collapse(rest);
    } else {
      var s, t := seg + rest, seg[1..] + rest;
      assert s[0] == seg[0] && s[1..] == t;
      CollapseSegment(seg[1..], rest);
      if |s| < 2 {
        assert rest == "" && seg[1..] == "";
        assert s == seg + "";
      } else {
        assert [seg[0]] + (seg[1..] + Collapse(rest)) == seg + Collapse(rest);
      }
    }
  }

  lemma CollapseSlash(t: Path)
    requires t != "" && t[0] != '/'
    ensures Collapse("/" + t) == "/" + Collapse(t)
  {
    assert ("/" + t)[1..] == t;
  }

  lemma CollapseRooted(seg: Path, rest: Path)
    requires '/' !in seg && (rest == "" || rest[0] == '/') && seg != ""
    ensures Collapse("/" + seg + rest) == "/" + seg + Collapse(rest)
  {
    var t := seg + rest;
    Assoc("/", seg, rest);
    CollapseSlash(t);
    CollapseSegment(seg, rest);
    Assoc("/", seg, Collapse(rest));
  }

  lemma {:induction false} NormIsRemoveDots(stack: seq<Path>, s: Path)
    requires Components(stack)
    ensures Norm(stack, s) == RemoveDots(Collapse("/" + s), Render(stack))
    decreases |s|
  {
    var i := FirstSlash(s);
    if i == |s| {
      RemoveDotsLast(stack, s);
      if s != "" {
        CollapseRooted(s, "");
        assert "/" + s + "" == "/" + s;
      }
    } else {
      var seg, rest := s[..i], s[i + 1..];
      PushComponents(stack, seg);
      NormIsRemoveDots(Push(stack, seg), rest);
      assert "/" + rest == s[i..];
      Cut(s, i);
      Assoc("/", seg, s[i..]);
      if seg == "" {
        assert s == "/" + rest;
        var t := "/" + s;
        assert t[0] == '/' && t[1] == '/' && t[1..] == s;
      } else {
        CollapseRooted(seg, s[i..]);
        RemoveDotsSegment(stack, seg, Collapse("/" + rest));
      }
    }
  }

  /** The result is what the RFC's algorithm makes of the rooted path with its runs of '/' merged. */
  lemma AgreesWithRfc3986(p: Path)
    requires p != ""
    ensures Simplify(p) == RemoveDots(Collapse("/" + Strip(p)), "")
  {
    var s := Strip(p);
    NormIsRemoveDots([], Rooted(s));
    if s != "" && s[0] == '/' {
      assert "/" + Rooted(s) == s;
      var t := "/" + s;
      assert t[0] == '/' && t[1] == '/' && t[1..] == s;
    }
  }

  // ---------- the scan ----------

  const NUL: char := 0 as char

  /** A segment behind the rendered components. */
  function Open(stack: seq<Path>, seg: Path): Path { Render(stack) + ("/" + seg) }

  lemma OpenParts(o: Path, stack: seq<Path>, seg: Path, k: nat)
    requires o == Open(stack, seg) && k == |Render(stack)|
    ensures |o| == k + 1 + |seg| && o[..k] == Render(stack) && o[k] == '/' && o[..k + 1] == Render(stack) + "/"
    ensures forall j :: 0 <= j < |seg| ==> o[k + 1 + j] == seg[j]
  {
  }

  /** From behind the rendered components back to the '/' of the last one. */
  method BackToSlash(o: Path, slash: nat, ghost stack: seq<Path>) returns (out: nat)
    requires slash <= |o| && Components(stack) && stack != [] && o[..slash] == Render(stack)
    ensures out < slash && o[..out] == Render(Push(stack, "..")) && o[..out + 1] == Render(Push(stack, "..")) + "/"
  {
    ghost var front, last := stack[..|stack| - 1], stack[|stack| - 1];
    ghost var k := |Render(front)|;
    OpenParts(o[..slash], front, last, k);
    out := slash - 1;
    while out > 0 && o[out] != '/'
      invariant k <= out < slash
    {
      assert o[..slash][out] == o[out];
      assert o[..slash][k] == '/';
      out := out - 1;
    }
    assert o[out] == o[..slash][out];
    assert out == k;
    assert o[..k] == o[..slash][..k] && o[..k + 1] == o[..slash][..k + 1];
  }

  /** At the end of a segment: keeps it, drops it, or drops the one before as well. */
  method EndSegment(o: Path, slash: nat, c: char, pre2: char, pre1: char,
                    ghost stack: seq<Path>, ghost seg: Path) returns (out: nat)
    requires Components(stack) && '/' !in seg && o == Open(stack, seg) && slash == |Render(stack)|
    requires pre1 == o[|o| - 1] && (|o| - slash > 1 ==> pre2 == o[|o| - 2])
    ensures out <= |o|
    ensures c != NUL ==> o[..out] == Render(Push(stack, seg))
    ensures c == NUL ==> o[..out] == Close(stack, seg)
  {
    OpenParts(o, stack, seg, slash);
    Tail(o, slash, seg, pre2, pre1);
    out := |o|;
    var toklen := |o| - slash;
    if toklen == 3 && pre2 == '.' && pre1 == '.' {
      out := slash;
      if out > 0 { out := BackToSlash(o, slash, stack); }
      if c == NUL { out := out + 1; }
    } else if toklen == 1 || (pre2 == '/' && pre1 == '.') {
      out := slash;
      if c == NUL { out := out + 1; }
    } else {
      RenderPush(stack, seg);
      assert o[..|o|] == o;
      assert Render(stack + [seg]) + "" == Render(stack + [seg]);
    }
  }

  /** The last two characters tell the special segments. */
  lemma Tail(o: Path, slash: nat, seg: Path, pre2: char, pre1: char)
    requires '/' !in seg && |o| == slash + 1 + |seg| && o[slash] == '/'
    requires forall j :: 0 <= j < |seg| ==> o[slash + 1 + j] == seg[j]
    requires pre1 == o[|o| - 1] && (|o| - slash > 1 ==> pre2 == o[|o| - 2])
    ensures (|o| - slash == 3 && pre2 == '.' && pre1 == '.') <==> seg == ".."
    ensures |o| - slash == 1 <==> seg == ""
    ensures |o| - slash > 1 ==> ((pre2 == '/' && pre1 == '.') <==> seg == ".")
  {
    if |seg| >= 1 { assert pre1 == seg[|seg| - 1]; }
    if |seg| >= 2 { assert pre2 == seg[|seg| - 2]; }
  }

  /** The input as it is read: text, then NUL. */
  function At(text: Path, i: nat): char { if i < |text| then text[i] else NUL }

  predicate Text(text: Path) { NUL !in text }

  /** The source still holds the text from w on. */
  ghost predicate Unread(src: array<char>, text: Path, w: nat)
    reads src
  {
    |text| < src.Length && forall j :: w <= j <= |text| ==> src[j] == At(text, j)
  }

  /**
   The output o holds the components, then from the slash mark on the segment being copied;
   that segment and the text from w on come to `result`.
   */
  ghost predicate Copying(o: Path, text: Path, w: nat, slash: nat, stack: seq<Path>, seg: Path, result: Path) {
    w <= |text| && slash == |Render(stack)| && Components(stack) && '/' !in seg &&
    o == Open(stack, seg) && result == Norm(stack, seg + text[w..])
  }

  /** Between two segments: the character at w - 1 is the '/' of the next. */
  ghost predicate Between(o: Path, text: Path, w: nat, stack: seq<Path>, result: Path) {
    0 < w <= |text| && text[w - 1] == '/' && Components(stack) && o == Render(stack) &&
    result == Norm(stack, text[w..])
  }

  /** What holds when the character c has been read from position w - 1: output never overtakes input. */
  ghost predicate Scanning(o: Path, text: Path, w: nat, slash: nat, c: char, pre1: char,
                           stack: seq<Path>, seg: Path, result: Path) {
    0 < w <= |text| + 1 && c == At(text, w - 1) && slash <= |o| <= w &&
    (if c == NUL then o == result
     else if slash == |o| then Between(o, text, w, stack, result)
     else c != '/' && pre1 == o[|o| - 1] && Copying(o, text, w - 1, slash, stack, seg, result))
  }

  /** Copying the '/' starts a segment, copying another character makes it longer. */
  lemma Copied(o: Path, text: Path, w: nat, slash: nat, c: char, pre1: char,
               stack: seq<Path>, seg: Path, result: Path) returns (seg': Path)
    requires Text(text) && c != NUL && Scanning(o, text, w, slash, c, pre1, stack, seg, result)
    ensures Copying(o + [c], text, w, slash, stack, seg', result)
  {
    if slash == |o| {
      seg' := "";
      CopySlash(o, c, text, w, stack, result);
    } else {
      seg' := seg + [c];
      CopyChar(o, c, text, w, slash, stack, seg, result);
    }
  }

  lemma CopySlash(o: Path, c: char, text: Path, w: nat, stack: seq<Path>, result: Path)
    requires Between(o, text, w, stack, result) && c == '/'
    ensures Copying(o + [c], text, w, |o|, stack, "", result)
  {
    assert "/" + "" == [c];
    assert "" + text[w..] == text[w..];
  }

  lemma CopyChar(o: Path, c: char, text: Path, w: nat, slash: nat, stack: seq<Path>, seg: Path, result: Path)
    requires 0 < w <= |text| && Copying(o, text, w - 1, slash, stack, seg, result) && text[w - 1] == c != '/'
    ensures Copying(o + [c], text, w, slash, stack, seg + [c], result)
  {
    Assoc(Render(stack), "/" + seg, [c]);
    Assoc("/", seg, [c]);
    NextOut(text, w - 1);
    Assoc(seg, [c], text[w..]);
  }

  lemma EndsInSlash(text: Path, w: nat, stack: seq<Path>, seg: Path, result: Path)
    requires w < |text| && '/' !in seg && text[w] == '/' && result == Norm(stack, seg + text[w..])
    ensures result == Norm(Push(stack, seg), text[w + 1..])
  {
    NextOut(text, w);
    Assoc(seg, "/", text[w + 1..]);
    NormSegment(stack, seg, text[w + 1..]);
  }

  lemma EndsInNul(text: Path, stack: seq<Path>, seg: Path, result: Path)
    requires '/' !in seg && result == Norm(stack, seg + text[|text|..])
    ensures result == Close(stack, seg)
  {
    assert seg + text[|text|..] == seg;
    NormSegment(stack, seg, "");
  }

  /** The second half of a turn: c has been read from position w, those before it are copied. */
  method Look(o: Path, w: nat, slash: nat, c: char, pre2: char, pre1: char,
              ghost text: Path, ghost stack: seq<Path>, ghost seg: Path, ghost result: Path)
    returns (slash': nat, out: nat, ghost stack': seq<Path>)
    requires Text(text) && Copying(o, text, w, slash, stack, seg, result)
    requires c == At(text, w) && |o| <= w + 1
    requires pre1 == o[|o| - 1] && (|o| - slash > 1 ==> pre2 == o[|o| - 2])
    ensures out <= |o| && Scanning(o[..out], text, w + 1, slash', c, pre1, stack', seg, result)
  {
    slash', out, stack' := slash, |o|, stack;
    assert o[..out] == o;
    if c == '/' || c == NUL {
      out := EndSegment(o, slash, c, pre2, pre1, stack, seg);
      PushComponents(stack, seg);
      if c == '/' { EndsInSlash(text, w, stack, seg, result); } else { EndsInNul(text, stack, seg, result); }
      slash' := out;
      stack' := Push(stack, seg);
    }
  }

  /** Writes c, perhaps over the character just read; what lies ahead stays. */
  method Put(dest: array<char>, src: array<char>, out: nat, c: char, ghost text: Path, w: nat)
    requires out < dest.Length && out <= w && Unread(src, text, w)
    modifies dest
    ensures dest[..out + 1] == old(dest[..out]) + [c] && Unread(src, text, w + 1)
    ensures forall i :: out < i < dest.Length ==> dest[i] == old(dest[i])
  {
    dest[out] := c;
  }

  /** One turn of the scan: reads ahead, copies, and looks whether a segment has ended. */
  method Turn(dest: array<char>, src: array<char>, w: nat, slash: nat, out: nat, c: char, pre1: char,
              ghost text: Path, ghost stack: seq<Path>, ghost seg: Path, ghost result: Path)
    returns (slash': nat, out': nat, c': char, ghost stack': seq<Path>, ghost seg': Path)
    requires Text(text) && c != NUL && dest.Length >= |text| + 2 && out <= dest.Length && w <= |text|
    requires Scanning(dest[..out], text, w, slash, c, pre1, stack, seg, result) && Unread(src, text, w)
    modifies dest
    ensures out' <= dest.Length && Scanning(dest[..out'], text, w + 1, slash', c', c, stack', seg', result)
    ensures Unread(src, text, w + 1)
    ensures forall i :: w < i < dest.Length ==> dest[i] == old(dest[i])
  {
    c' := src[w];
    ghost var o := dest[..out];
    seg' := Copied(o, text, w, slash, c, pre1, stack, seg, result);
    Put(dest, src, out, c, text, w);
    var now := dest[..out + 1];
    LastTwo(o, c);
    slash', out', stack' := Look(now, w, slash, c', pre1, c, text, stack, seg', result);
    TakeTake(dest[..], out + 1, out');
  }

  lemma LastTwo(o: Path, c: char)
    ensures (o + [c])[|o|] == c && (|o| > 0 ==> (o + [c])[|o| - 1] == o[|o| - 1])
  {
  }

  /** The text starts behind the spaces, with or without its '/'. */
  lemma Entry(text: Path, k: nat)
    requires Text(text) && text != "" && k <= |text| && Strip(text) == text[k..]
    ensures At(text, k) == '/' ==>
      Scanning("", text, k + 1, 0, '/', NUL, [], "", Simplify(text))
    ensures At(text, k) != '/' ==>
      Scanning("/", text, k + 1, 0, At(text, k), '/', [], "", Simplify(text))
  {
    if At(text, k) == '/' {
      assert text[k..][1..] == text[k + 1..];
    } else {
      assert "" + ("/" + "") == "/";
      assert "" + text[k..] == text[k..];
      if k == |text| { NormSegment([], "", ""); }
    }
  }

  method SkipSpaces(src: array<char>, ghost text: Path) returns (k: nat)
    requires Text(text) && Unread(src, text, 0)
    ensures k <= |text| && Strip(text) == text[k..]
  {
    k := 0;
    assert text[0..] == text;
    while src[k] == ' '
      invariant k <= |text| && Strip(text) == Strip(text[k..])
      decreases |text| - k
    {
      assert text[k..][1..] == text[k + 1..];
      k := k + 1;
    }
  }

  /** Reads the first character behind the spaces and puts the leading '/' if it is not one. */
  method Enter(dest: array<char>, src: array<char>, ghost text: Path)
    returns (w: nat, out: nat, c: char, pre1: char)
    requires Text(text) && text != "" && Unread(src, text, 0) && dest.Length >= |text| + 2
    modifies dest
    ensures out <= dest.Length && Unread(src, text, w)
    ensures Scanning(dest[..out], text, w, 0, c, pre1, [], "", Simplify(text))
    ensures forall i :: |text| < i < dest.Length ==> dest[i] == old(dest[i])
  {
    var k := SkipSpaces(src, text);
    Entry(text, k);
    c, w, out, pre1 := src[k], k + 1, 0, NUL;
    assert dest[..0] == "";
    if c != '/' {
      pre1 := '/';
      Put(dest, src, 0, '/', text, k);
      out := 1;
    }
  }

  /**
   Writes the simplified path to dest, which may be the source itself; `n` is the length of the
   source's text. Beyond the room for one more character nothing is touched.
   */
  method PathSimplify(dest: array<char>, src: array<char>, n: nat) returns (len: nat)
    requires n < src.Length && src[n] == NUL && NUL !in src[..n] && n + 2 <= dest.Length
    modifies dest
    ensures len <= n + 1 && dest[..len] == Simplify(old(src[..n])) && dest[len] == NUL
    ensures forall i :: n + 1 < i < dest.Length ==> dest[i] == old(dest[i])
  {
    ghost var text := src[..n];
    if n == 0 {
      dest[0] := NUL;
      return 0;
    }
    len := Scan(dest, src, text);
    ghost var o := dest[..len];
    dest[len] := NUL;
    assert dest[..len] == o;
  }

  method Scan(dest: array<char>, src: array<char>, ghost text: Path) returns (out: nat)
    requires Text(text) && text != "" && Unread(src, text, 0) && dest.Length >= |text| + 2
    modifies dest
    ensures out <= |text| + 1 && dest[..out] == Simplify(text)
    ensures forall i :: |text| < i < dest.Length ==> dest[i] == old(dest[i])
  {
    var w, c, pre1;
    w, out, c, pre1 := Enter(dest, src, text);
    var slash := 0;
    ghost var stack, seg := [], "";
    while c != NUL
      invariant out <= dest.Length
      invariant Scanning(dest[..out], text, w, slash, c, pre1, stack, seg, Simplify(text))
      invariant Unread(src, text, w)
      invariant forall i :: |text| < i < dest.Length ==> dest[i] == old(dest[i])
      decreases |text| + 1 - w
    {
      var last := c;
      slash, out, c, stack, seg := Turn(dest, src, w, slash, out, c, pre1, text, stack, seg, Simplify(text));
      pre1 := last;
      w := w + 1;
    }
  }
}
