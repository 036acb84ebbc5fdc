/** Text functions of the ADR files: the bracket-aware comma split and the filename slug
    (internal/adr/parse.go, internal/adr/create.go). */
module AdrText {
  import opened Common

  // ----- splitTopLevel -----

  predicate Opens(c: char) { c == '(' || c == '[' || c == '{' }

  predicate Closes(c: char) { c == ')' || c == ']' || c == '}' }

  /** An unmatched closing bracket is ignored. */
  function After(depth: nat, c: char): nat {
    if Opens(c) then depth + 1 else if Closes(c) && depth > 0 then depth - 1 else depth
  }

  function Prepend(w: string, parts: seq<string>): seq<string>
    requires parts != []
  {
    [w + parts[0]] + parts[1..]
  }

  /** The parts of a text that starts at the given depth. */
  function Split(s: string, depth: nat): (parts: seq<string>)
    ensures parts != []
  {
    if s == "" then [""]
    else if s[0] == ',' && depth == 0 then [""] + Split(s[1..], 0)
    else Prepend([s[0]], Split(s[1..], After(depth, s[0])))
  }

  /** One character of the scan. */
  lemma Scan(s: string, start: nat, i: nat, depth: nat)
    requires start <= i < |s|
    ensures Prepend(s[start..i], Split(s[i..], depth)) ==
      if s[i] == ',' && depth == 0 then [s[start..i]] + Prepend(s[i + 1..i + 1], Split(s[i + 1..], 0))
      else Prepend(s[start..i + 1], Split(s[i + 1..], After(depth, s[i])))
  {
    SplitStep(s, i, depth);
    hide Split, Prepend, After;
    if s[i] == ',' && depth == 0 {
      PrependToFirst(s[start..i], Split(s[i + 1..], 0));
      PrependToFirst("", Split(s[i + 1..], 0));
      assert s[i + 1..i + 1] == "";
    } else {
      PrependTwice(s[start..i], [s[i]], Split(s[i + 1..], After(depth, s[i])));
      assert s[start..i] + [s[i]] == s[start..i + 1];
    }
  }

  lemma SplitStep(s: string, i: nat, depth: nat)
    requires i < |s|
    ensures Split(s[i..], depth) ==
      if s[i] == ',' && depth == 0 then [""] + Split(s[i + 1..], 0)
      else Prepend([s[i]], Split(s[i + 1..], After(depth, s[i])))
  {
    hide Prepend, After;
    assert s[i..][0] == s[i] && s[i..][1..] == s[i + 1..];
  }

  /** The parts found so far, and the text from start on still to be cut. */
  ghost predicate Scanned(s: string, out: seq<string>, start: nat, i: nat, depth: nat) {
    start <= i <= |s| && Split(s, 0) == out + Prepend(s[start..i], Split(s[i..], depth))
  }

  lemma ScanStarts(s: string)
    ensures Scanned(s, [], 0, 0, 0)
  {
    PrependToFirst("", Split(s, 0));
    assert s[0..0] == "" && s[0..] == s;
  }

  lemma ScanNext(s: string, out: seq<string>, start: nat, i: nat, depth: nat)
    requires i < |s| && Scanned(s, out, start, i, depth)
    ensures if s[i] == ',' && depth == 0 then Scanned(s, out + [s[start..i]], i + 1, i + 1, 0)
            else Scanned(s, out, start, i + 1, After(depth, s[i]))
  {
    Scan(s, start, i, depth);
  }

  lemma ScanEnds(s: string, out: seq<string>, start: nat, depth: nat)
    requires Scanned(s, out, start, |s|, depth)
    ensures Split(s, 0) == out + [s[start..]]
  {
    assert s[start..] == s[start..|s|] && s[|s|..] == "";
    PrependToFirst(s[start..], []);
    assert [""] + [] == [""];
  }

  method SplitTopLevel(s: string) returns (out: seq<string>)
    ensures out == Split(s, 0)
  {
    hide Split, Prepend;
    out := [];
    var depth: nat, start: nat := 0, 0;
    ScanStarts(s);
    for i := 0 to |s|
      invariant Scanned(s, out, start, i, depth)
    {
      ScanNext(s, out, start, i, depth);
      var r := s[i];
      if Opens(r) {
        depth := depth + 1;
      } else if Closes(r) {
        if depth > 0 { depth := depth - 1; }
      } else if r == ',' {
        if depth == 0 { out, start := out + [s[start..i]], i + 1; }
      }
    }
    ScanEnds(s, out, start, depth);
    out := out + [s[start..]];
  }

  lemma PrependToFirst(w: string, parts: seq<string>)
    ensures Prepend(w, [""] + parts) == [w] + parts
    ensures parts != [] ==> Prepend("", parts) == parts
  {
    assert w + "" == w && ([""] + parts)[1..] == parts;
    if parts != [] { assert "" + parts[0] == parts[0] && [parts[0]] + parts[1..] == parts; }
  }

  lemma PrependTwice(v: string, w: string, parts: seq<string>)
    requires parts != []
    ensures Prepend(v, Prepend(w, parts)) == Prepend(v + w, parts)
  {
    assert v + (w + parts[0]) == v + w + parts[0];
  }

  function Join(parts: seq<string>): string
    requires parts != []
  {
    if |parts| == 1 then parts[0] else parts[0] + "," + Join(parts[1..])
  }

  /** Joining with commas restores any text. */
  lemma {:induction false} JoinSplit(s: string, depth: nat)
    ensures Join(Split(s, depth)) == s
  {
    if s != "" {
      if s[0] == ',' && depth == 0 {
        JoinSplit(s[1..], 0);
        assert ([""] + Split(s[1..], 0))[1..] == Split(s[1..], 0);
        assert Join(Split(s, 0)) == "" + "," + s[1..];
      } else {
        var rest := Split(s[1..], After(depth, s[0]));
        JoinSplit(s[1..], After(depth, s[0]));
        JoinPrepend([s[0]], rest);
      }
    }
  }

  lemma JoinPrepend(w: string, parts: seq<string>)
    requires parts != []
    ensures Join(Prepend(w, parts)) == w + Join(parts)
  {
  }

  function EndDepth(s: string, depth: nat): nat {
    if s == "" then depth else EndDepth(s[1..], After(depth, s[0]))
  }

  /** No comma stands outside brackets. */
  predicate NoTopComma(s: string, depth: nat) {
    s == "" || (!(s[0] == ',' && depth == 0) && NoTopComma(s[1..], After(depth, s[0])))
  }

  /** Parts that a split can yield: no comma outside brackets in any of them, and all but
      the last close the brackets they open. */
  predicate Splittable(parts: seq<string>, depth: nat) {
    && parts != []
    && NoTopComma(parts[0], depth)
    && (|parts| > 1 ==> EndDepth(parts[0], depth) == 0 && Splittable(parts[1..], 0))
  }

  lemma {:induction false} SplitIsSplittable(s: string, depth: nat)
    ensures Splittable(Split(s, depth), depth)
  {
    if s != "" {
      if s[0] == ',' && depth == 0 {
        SplitIsSplittable(s[1..], 0);
        assert ([""] + Split(s[1..], 0))[1..] == Split(s[1..], 0);
      } else {
        var d := After(depth, s[0]);
        var rest := Split(s[1..], d);
        SplitIsSplittable(s[1..], d);
        assert ([s[0]] + rest[0])[1..] == rest[0];
        assert Prepend([s[0]], rest)[1..] == rest[1..];
      }
    }
  }

  lemma {:induction false} SplitOnePart(p: string, depth: nat, tail: string)
    requires NoTopComma(p, depth)
    ensures Split(p + tail, depth) == Prepend(p, Split(tail, EndDepth(p, depth)))
  {
    if p == "" {
      assert p + tail == tail;
      PrependToFirst("", Split(tail, depth));
    } else {
      assert (p + tail)[1..] == p[1..] + tail;
      SplitOnePart(p[1..], After(depth, p[0]), tail);
      PrependTwice([p[0]], p[1..], Split(tail, EndDepth(p, depth)));
      assert [p[0]] + p[1..] == p;
    }
  }

  lemma {:induction false} SplitJoined(parts: seq<string>, depth: nat)
    requires Splittable(parts, depth)
    ensures Split(Join(parts), depth) == parts
    decreases |parts|
  {
    if |parts| == 1 {
      assert parts[0] + "" == parts[0];
      SplitOnePart(parts[0], depth, "");
      assert parts == [parts[0]];
    } else {
      SplitJoined(parts[1..], 0);
      SplitTail(parts, depth);
    }
  }

  lemma SplitTail(parts: seq<string>, depth: nat)
    requires |parts| > 1 && NoTopComma(parts[0], depth) && EndDepth(parts[0], depth) == 0
    requires Split(Join(parts[1..]), 0) == parts[1..]
    ensures Split(Join(parts), depth) == parts
  {
    var tail := "," + Join(parts[1..]);
    assert Join(parts) == parts[0] + tail;
    SplitStep(tail, 0, 0);
    hide Split, Prepend, NoTopComma, EndDepth, Join;
    assert tail[0..] == tail && tail[1..] == Join(parts[1..]);
    SplitOnePart(parts[0], depth, tail);
    PrependToFirst(parts[0], parts[1..]);
    assert [parts[0]] + parts[1..] == parts;
  }

  /** Splitting a join restores the parts exactly when they are splittable. */
  lemma SplitJoinExact(parts: seq<string>)
    requires parts != []
    ensures Split(Join(parts), 0) == parts <==> Splittable(parts, 0)
  {
    if Splittable(parts, 0) { SplitJoined(parts, 0); }
    SplitIsSplittable(Join(parts), 0);
  }

  function NaiveSplit(s: string): (parts: seq<string>)
    ensures parts != []
  {
    if s == "" then [""] else if s[0] == ',' then [""] + NaiveSplit(s[1..]) else Prepend([s[0]], NaiveSplit(s[1..]))
  }

  /** Without opening brackets the split is the plain one, however many are closed. */
  lemma {:induction false} NoBracketsIsNaive(s: string)
    requires forall i | 0 <= i < |s| :: s[i] !in {'(', '[', '{'}
    ensures Split(s, 0) == NaiveSplit(s)
  {
    if s != "" { NoBracketsIsNaive(s[1..]); }
  }

  /** A bracket of any kind protects what follows it up to a closing one of any kind, and
      the commas outside split: for texts without further brackets. */
  lemma BracketsProtect(before: string, open: char, inner: string, close: char, after: string)
    requires open in {'(', '[', '{'} && close in {')', ']', '}'}
    requires forall c | c in before || c in inner || c in after :: c !in {'(', '[', '{', ')', ']', '}'}
    requires ',' !in before
    ensures Split(before + [open] + inner + [close] + after, 0) ==
      Prepend(before + [open] + inner + [close], NaiveSplit(after))
  {
    var protected := [open] + inner + [close];
    InsideIsProtected(inner, close);
    PlainText(before);
    assert forall i | 0 <= i < |after| :: after[i] in after;
    NoBracketsIsNaive(after);
    TopCommaAppends(before, protected);
    SplitOnePart(before + protected, 0, after);
    assert before + [open] + inner + [close] + after == (before + protected) + after;
    assert before + [open] + inner + [close] == before + protected;
  }

  lemma {:induction false} PlainText(s: string)
    requires forall c | c in s :: c !in {'(', '[', '{', ')', ']', '}', ','}
    ensures NoTopComma(s, 0) && EndDepth(s, 0) == 0
  {
    if s != "" {
      assert s[0] in s && forall c | c in s[1..] :: c in s;
      PlainText(s[1..]);
    }
  }

  lemma {:induction false} AtDepthOne(inner: string, close: char)
    requires close in {')', ']', '}'} && forall c | c in inner :: c !in {'(', '[', '{', ')', ']', '}'}
    ensures NoTopComma(inner + [close], 1) && EndDepth(inner + [close], 1) == 0
  {
    if inner == "" {
      assert inner + [close] == [close] && [close][1..] == "";
    } else {
      assert (inner + [close])[1..] == inner[1..] + [close] && (inner + [close])[0] == inner[0];
      assert inner[0] in inner && forall c | c in inner[1..] :: c in inner;
      AtDepthOne(inner[1..], close);
    }
  }

  lemma InsideIsProtected(inner: string, close: char)
    requires close in {')', ']', '}'} && forall c | c in inner :: c !in {'(', '[', '{', ')', ']', '}'}
    ensures forall open | open in {'(', '[', '{'} ::
      NoTopComma([open] + inner + [close], 0) && EndDepth([open] + inner + [close], 0) == 0
  {
    AtDepthOne(inner, close);
    forall open | open in {'(', '[', '{'}
      ensures NoTopComma([open] + inner + [close], 0) && EndDepth([open] + inner + [close], 0) == 0
    {
      var s := [open] + inner + [close];
      assert s[0] == open && s[1..] == inner + [close];
    }
  }

  lemma {:induction false} TopCommaAppends(s: string, t: string)
    requires NoTopComma(s, 0) && EndDepth(s, 0) == 0 && NoTopComma(t, 0) && EndDepth(t, 0) == 0
    ensures NoTopComma(s + t, 0) && EndDepth(s + t, 0) == 0
  {
    AppendsAt(s, 0, t);
  }

  lemma {:induction false} AppendsAt(s: string, depth: nat, t: string)
    requires NoTopComma(s, depth) && NoTopComma(t, EndDepth(s, depth))
    ensures NoTopComma(s + t, depth) && EndDepth(s + t, depth) == EndDepth(t, EndDepth(s, depth))
  {
    if s == "" {
      assert s + t == t;
    } else {
      assert (s + t)[1..] == s[1..] + t && (s + t)[0] == s[0];
      AppendsAt(s[1..], After(depth, s[0]), t);
    }
  }

  // ----- deriveSlug -----

  const MAX_SLUG_LEN := 48

  predicate Alnum(c: char) { 'a' <= c <= 'z' || '0' <= c <= '9' }

  /** Lower-casing maps each character to one character and leaves slugs alone. */
  ghost predicate Lowering(lower: char -> char) {
    forall c | Alnum(c) || c == '-' :: lower(c) == c
  }

  function Lower(s: string, lower: char -> char): (r: string)
    ensures |r| == |s| && forall i | 0 <= i < |s| :: r[i] == lower(s[i])
  {
    seq(|s|, i requires 0 <= i < |s| => lower(s[i]))
  }

  function Last(s: string): char
    requires s != ""
  {
    s[|s| - 1]
  }

  /** The maximal runs of letters and digits, in order. */
  function Runs(s: string): (ws: seq<string>)
    ensures s != "" && Alnum(Last(s)) ==> ws != []
    ensures forall i | 0 <= i < |ws| :: ws[i] != "" && forall k | 0 <= k < |ws[i]| :: Alnum(ws[i][k])
  {
    if s == "" then []
    else
      var p, c := s[..|s| - 1], Last(s);
      var ws := Runs(p);
      if !Alnum(c) then ws
      else if p != "" && Alnum(Last(p)) then ws[..|ws| - 1] + [ws[|ws| - 1] + [c]]
      else ws + [[c]]
  }

  function Hyphenated(ws: seq<string>): string {
    if ws == [] then ""
    else if |ws| == 1 then ws[0]
    else Hyphenated(ws[..|ws| - 1]) + "-" + ws[|ws| - 1]
  }

  /** Lower-case kebab: no hyphen first, last or twice. */
  predicate Kebab(s: string) {
    && s != "" && s[0] != '-' && Last(s) != '-'
    && (forall i | 0 <= i < |s| :: Alnum(s[i]) || s[i] == '-')
    && (forall i | 0 <= i < |s| - 1 :: s[i] == '-' ==> s[i + 1] != '-')
  }

  /** What the loop has written: a kebab start, perhaps with one hyphen to spare. */
  function Written(s: string): string {
    var h := Hyphenated(Runs(s));
    if h != "" && s != "" && !Alnum(Last(s)) then h + "-" else h
  }

  /** Kebab strings are exactly the non-empty lists of words, hyphenated: the pattern
      ^[a-z0-9]+(-[a-z0-9]+)*$ of a supplied slug. */
  lemma {:induction false} HyphenatedIsKebab(ws: seq<string>)
    requires forall i | 0 <= i < |ws| :: ws[i] != "" && forall k | 0 <= k < |ws[i]| :: Alnum(ws[i][k])
    ensures ws == [] || Kebab(Hyphenated(ws))
    decreases |ws|
  {
    if |ws| > 1 {
      HyphenatedIsKebab(ws[..|ws| - 1]);
    }
  }

  /** One more character: it extends the last run, starts one, or ends one. */
  lemma RunsNext(p: string, c: char)
    ensures Alnum(c) && p != "" && Alnum(Last(p)) ==> Hyphenated(Runs(p + [c])) == Hyphenated(Runs(p)) + [c]
    ensures Alnum(c) && !(p != "" && Alnum(Last(p))) ==>
      Hyphenated(Runs(p + [c])) == if Runs(p) == [] then [c] else Hyphenated(Runs(p)) + "-" + [c]
    ensures !Alnum(c) ==> Runs(p + [c]) == Runs(p)
    ensures Runs(p) == [] <==> Hyphenated(Runs(p)) == ""
  {
    var s, ws := p + [c], Runs(p);
    assert s[..|s| - 1] == p && Last(s) == c;
    HyphenatedIsKebab(ws);
    if Alnum(c) && p != "" && Alnum(Last(p)) {
      assert Runs(s) == ws[..|ws| - 1] + [ws[|ws| - 1] + [c]];
      hide Runs, Kebab;
      LongerLastWord(ws, c);
    } else if Alnum(c) {
      assert Runs(s) == ws + [[c]];
      hide Runs, Kebab;
      assert (ws + [[c]])[..|ws|] == ws;
    }
  }

  lemma LongerLastWord(ws: seq<string>, c: char)
    requires ws != []
    ensures Hyphenated(ws[..|ws| - 1] + [ws[|ws| - 1] + [c]]) == Hyphenated(ws) + [c]
  {
    var n := |ws| - 1;
    assert (ws[..n] + [ws[n] + [c]])[..n] == ws[..n];
    assert n > 0 ==> Hyphenated(ws[..n]) + "-" + (ws[n] + [c]) == Hyphenated(ws[..n]) + "-" + ws[n] + [c];
  }

  function TrimHyphens(s: string): (r: string)
    ensures r <= s && (r != "" ==> Last(r) != '-')
    ensures forall i | |r| <= i < |s| :: s[i] == '-'
  {
    if s == "" || Last(s) != '-' then s else TrimHyphens(s[..|s| - 1])
  }

  function LastHyphen(s: string): (i: int)
    ensures -1 <= i < |s| && (i >= 0 ==> s[i] == '-')
    ensures forall k | i < k < |s| :: s[k] != '-'
  {
    if s == "" then -1 else if Last(s) == '-' then |s| - 1 else LastHyphen(s[..|s| - 1])
  }

  /** The length cap: cut, then back off to the last hyphen if there is one. */
  function Cap(slug: string): string {
    if |slug| <= MAX_SLUG_LEN then slug
    else
      var cut := slug[..MAX_SLUG_LEN];
      if LastHyphen(cut) >= 0 then cut[..LastHyphen(cut)] else cut
  }

  /** The slug of a title: its runs of letters and digits, hyphenated and capped. */
  function Slug(title: string, lower: char -> char): string {
    Cap(Hyphenated(Runs(Lower(title, lower))))
  }

  method DeriveSlug(title: string, lower: char -> char) returns (slug: string)
    ensures slug == Slug(title, lower)
  {
    hide Runs, Hyphenated, Kebab;
    var runes := Lower(title, lower);
    var b, prevHyphen := "", true;
    NothingWritten();
    for i := 0 to |runes|
      invariant b == Written(runes[..i])
      invariant prevHyphen <==> b == "" || Last(b) == '-'
    {
      var r := runes[i];
      WrittenNext(runes[..i], r);
      assert runes[..i + 1] == runes[..i] + [r];
      if Alnum(r) {
        b, prevHyphen := b + [r], false;
      } else if !prevHyphen {
        b, prevHyphen := b + "-", true;
      }
    }
    assert runes[..|runes|] == runes;
    slug := TrimHyphens(b);
    TrimWritten(runes);
    if |slug| > MAX_SLUG_LEN {
      var truncated := slug[..MAX_SLUG_LEN];
      var idx := LastHyphen(truncated);
      if idx >= 0 { truncated := truncated[..idx]; }
      slug := truncated;
    }
  }

  lemma NothingWritten()
    ensures Written("") == ""
  {
  }

  lemma WrittenNext(p: string, c: char)
    ensures Written(p + [c]) ==
      if Alnum(c) then Written(p) + [c]
      else if Written(p) == "" || Last(Written(p)) == '-' then Written(p)
      else Written(p) + "-"
  {
    RunsNext(p, c);
    HyphenatedIsKebab(Runs(p));
    assert Last(p + [c]) == c;
  }

  /** A kebab string, or the start of one. */
  predicate Started(s: string) {
    && (s != "" ==> s[0] != '-')
    && (forall i | 0 <= i < |s| :: Alnum(s[i]) || s[i] == '-')
    && (forall i | 0 <= i < |s| - 1 :: s[i] == '-' ==> s[i + 1] != '-')
  }

  lemma {:induction false} StartedIsWritten(s: string)
    requires Started(s)
    ensures Written(s) == s
  {
    if s != "" {
      var p, c := s[..|s| - 1], Last(s);
      assert s == p + [c];
      assert forall i | 0 <= i < |p| :: p[i] == s[i];
      StartedIsWritten(p);
      WrittenNext(p, c);
    }
  }

  lemma KebabIsHyphenated(s: string)
    ensures Kebab(s) ==> Hyphenated(Runs(s)) == s
  {
    if Kebab(s) { StartedIsWritten(s); }
  }

  lemma TrimWritten(s: string)
    ensures TrimHyphens(Written(s)) == Hyphenated(Runs(s))
  {
  }

  /** The pattern in terms of characters: lower-case ASCII letters and digits, with single
      hyphens between them. */
  lemma KebabExactly(s: string)
    ensures Kebab(s) <==>
      && s != "" && s[0] != '-' && s[|s| - 1] != '-'
      && (forall c | c in s :: c == '-' || 97 <= c as int <= 122 || 48 <= c as int <= 57)
      && (forall i | 0 < i < |s| :: s[i - 1] != '-' || s[i] != '-')
  {
    assert forall i | 0 <= i < |s| :: s[i] in s;
    assert (forall i | 0 < i < |s| :: s[i - 1] != '-' || s[i] != '-') <==>
      forall i | 0 <= i < |s| - 1 :: s[i] == '-' ==> s[i + 1] != '-' by
    {
      if forall i | 0 < i < |s| :: s[i - 1] != '-' || s[i] != '-' {
        forall i | 0 <= i < |s| - 1 ensures s[i] == '-' ==> s[i + 1] != '-' {
          assert s[(i + 1) - 1] != '-' || s[i + 1] != '-';
        }
      }
    }
  }

  /** A slug is empty or kebab, and never longer than 48 characters. */
  lemma SlugIsKebab(title: string, lower: char -> char)
    ensures Slug(title, lower) == "" || Kebab(Slug(title, lower))
    ensures |Slug(title, lower)| <= 48
  {
    var full := Hyphenated(Runs(Lower(title, lower)));
    HyphenatedIsKebab(Runs(Lower(title, lower)));
    if |full| > MAX_SLUG_LEN {
      var cut := full[..MAX_SLUG_LEN];
      var idx := LastHyphen(cut);
      if idx >= 0 { assert idx > 0 && full[idx] == '-' && full[idx - 1] != '-'; }
    }
  }

  /** A valid slug within the cap is its own slug, */
  lemma SlugFixesKebab(s: string, lower: char -> char)
    requires Lowering(lower) && (s == "" || Kebab(s)) && |s| <= 48
    ensures Slug(s, lower) == s
  {
    assert Lower(s, lower) == s;
    KebabIsHyphenated(s);
  }

  /** so deriving twice changes nothing. */
  lemma SlugIsIdempotent(title: string, lower: char -> char)
    requires Lowering(lower)
    ensures Slug(Slug(title, lower), lower) == Slug(title, lower)
  {
    SlugIsKebab(title, lower);
    SlugFixesKebab(Slug(title, lower), lower);
  }

  /** The cap is documented never to leave a partial word. It leaves one exactly when the
      first word alone is longer than the cap. */
  lemma CapKeepsWholeWords(full: string)
    requires Kebab(full) && |full| > 48
    ensures Cap(full) <= full && |Cap(full)| < |full|
    ensures full[|Cap(full)|] == '-' <==> exists i | 0 <= i <= 48 :: full[i] == '-'
  {
  }

  /** And it keeps as many of them as the first 48 characters show a hyphen for. */
  lemma CapExactly(full: string)
    ensures |full| <= 48 ==> Cap(full) == full
    ensures |full| > 48 && '-' !in full[..48] ==> Cap(full) == full[..48]
    ensures forall i | 0 <= i < 48 < |full| && full[i] == '-' && '-' !in full[i + 1..48] :: Cap(full) == full[..i]
  {
    if |full| > 48 {
      var cut := full[..48];
      forall i | 0 <= i < 48 && full[i] == '-' && '-' !in full[i + 1..48] ensures LastHyphen(cut) == i {
        assert forall k | i < k < 48 :: full[i + 1..48][k - (i + 1)] == full[k];
        assert cut[i] == '-';
      }
    }
  }

  /** The runs are the words between the other characters: a word is its own only run, and
      what stands between two texts, if it is no letter or digit, separates their runs. */
  lemma {:induction false} RunsExactly(u: string, c: char, v: string)
    requires !('a' <= c <= 'z') && !('0' <= c <= '9')
    ensures Runs(u + [c] + v) == Runs(u) + Runs(v)
    decreases |v|
  {
    hide Runs, Grown;
    RunsSnoc(u, c);
    if v == "" {
      assert u + [c] + v == u + [c];
      NoRuns();
    } else {
      var v', d := v[..|v| - 1], v[|v| - 1];
      var s := u + [c] + v';
      RunsExactly(u, c, v');
      RunsSnoc(s, d);
      RunsSnoc(v', d);
      assert s + [d] == u + [c] + v && v' + [d] == v;
      assert Last(s) == if v' == "" then c else Last(v');
      GrownBehind(Runs(u), Runs(v'), d, v' != "" && Alnum(Last(v')));
    }
  }

  /** The runs with one more letter or digit, which goes on the last one or starts one. */
  function Grown(ws: seq<string>, c: char, goesOn: bool): seq<string>
    requires goesOn ==> ws != []
  {
    if goesOn then ws[..|ws| - 1] + [ws[|ws| - 1] + [c]] else ws + [[c]]
  }

  lemma GrownBehind(before: seq<string>, ws: seq<string>, c: char, goesOn: bool)
    requires goesOn ==> ws != []
    ensures Grown(before + ws, c, goesOn) == before + Grown(ws, c, goesOn)
  {
    if goesOn { assert (before + ws)[..|before + ws| - 1] == before + ws[..|ws| - 1]; }
  }

  lemma NoRuns()
    ensures Runs("") == []
  {
  }

  lemma RunsSnoc(p: string, c: char)
    ensures p != "" && Alnum(Last(p)) ==> Runs(p) != []
    ensures Runs(p + [c]) == if Alnum(c) then Grown(Runs(p), c, p != "" && Alnum(Last(p))) else Runs(p)
  {
    assert (p + [c])[..|p|] == p;
  }

  lemma {:induction false} WordIsItsRun(w: string)
    requires w != "" && forall c | c in w :: 'a' <= c <= 'z' || '0' <= c <= '9'
    ensures Runs("") == [] && Runs(w) == [w]
  {
    var p, c := w[..|w| - 1], w[|w| - 1];
    assert w == p + [c] && c in w;
    RunsSnoc(p, c);
    if p != "" {
      forall d | d in p ensures d in w { }
      WordIsItsRun(p);
      assert Last(p) in p;
    }
  }

  /** A title that is one word of 49 letters comes out as its first 48. */
  lemma LongWordIsCut(word: string, lower: char -> char)
    requires Lowering(lower) && |word| == 49 && forall c | c in word :: 97 <= c as int <= 122
    ensures Slug(word, lower) == word[..48] && word[48] != '-'
  {
    assert forall i | 0 <= i < |word| :: word[i] in word;
    assert Lower(word, lower) == word;
    OneWord(word);
    hide Runs, Hyphenated, Kebab, Alnum;
    var cut := word[..48];
    assert forall i | 0 <= i < 48 :: cut[i] == word[i] && cut[i] != '-';
  }

  lemma OneWord(word: string)
    requires word != "" && forall i | 0 <= i < |word| :: 97 <= word[i] as int <= 122
    ensures Hyphenated(Runs(word)) == word
  {
    KebabIsHyphenated(word);
    hide Runs, Hyphenated;
  }

  // ----- resolveSlug -----

  function Trim(s: string, isSpace: char -> bool): string {
    if s == "" then ""
    else if isSpace(s[0]) then Trim(s[1..], isSpace)
    else if isSpace(Last(s)) then Trim(s[..|s| - 1], isSpace)
    else s
  }

  /** What is trimmed is white space at both ends, and all of it. */
  lemma {:induction false} TrimExactly(s: string, isSpace: char -> bool) returns (i: nat, j: nat)
    ensures i <= j <= |s| && Trim(s, isSpace) == s[i..j]
    ensures forall k | 0 <= k < i || j <= k < |s| :: isSpace(s[k])
    ensures i < j ==> !isSpace(s[i]) && !isSpace(s[j - 1])
    decreases |s|
  {
    i, j := 0, |s|;
    if s != "" && isSpace(s[0]) {
      i, j := TrimExactly(s[1..], isSpace);
      assert s[1..][i..j] == s[i + 1..j + 1];
      i, j := i + 1, j + 1;
    } else if s != "" && isSpace(Last(s)) {
      i, j := TrimExactly(s[..|s| - 1], isSpace);
      assert s[..|s| - 1][i..j] == s[i..j];
    }
  }

  /** None is the refusal of a malformed override. */
  method ResolveSlug(title: string, override: Option<string>, lower: char -> char, isSpace: char -> bool)
    returns (r: Option<string>)
    ensures override == None ==> r == Some(Slug(title, lower))
    ensures override.Some? ==>
      var v := Trim(override.value, isSpace);
      r == if v == "" || Kebab(v) then Some(v) else None
    ensures override.Some? ==>
      var v := Trim(override.value, isSpace);
      r == Some(v) <==>
        || v == ""
        || (v[0] != '-' && v[|v| - 1] != '-' && (forall i | 0 < i < |v| :: v[i - 1] != '-' || v[i] != '-')
            && forall c | c in v :: c == '-' || 97 <= c as int <= 122 || 48 <= c as int <= 57)
  {
    if override.Some? { KebabExactly(Trim(override.value, isSpace)); }
    hide Kebab;
    if override == None {
      var slug := DeriveSlug(title, lower);
      return Some(slug);
    }
    var v := Trim(override.value, isSpace);
    if v == "" { return Some(""); }
    if !Kebab(v) { return None; }
    r := Some(v);
  }

  /** A derived slug passes the trimming and the pattern unchanged. */
  lemma DerivedSlugIsAccepted(title: string, lower: char -> char, isSpace: char -> bool)
    requires forall c | Alnum(c) :: !isSpace(c)
    ensures var slug := Slug(title, lower); Trim(slug, isSpace) == slug && (slug == "" || Kebab(slug))
  {
    SlugIsKebab(title, lower);
  }
}
