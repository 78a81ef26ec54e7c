// Detecting the upstream's block text, and cleaning it out of a request.
module Compliance {
  import opened Sequences

  const PATTERNS: seq<string> := [
    "high-frequency non-compliant",
    "Detected high-frequency",
    "comply with the platform usage agreement"
  ]

  /** How the library folds case and which characters it trims. */
  datatype Chars = Chars(fold: char -> char, space: char -> bool)

  /** What is known of `strings.ToLower`: rune by rune, ASCII as usual, and nothing
      else turns into a newline. */
  ghost predicate Faithful(cs: Chars) {
    && (forall c :: cs.fold(c) == '\n' ==> c == '\n')
    && (forall c: char :: 'A' <= c <= 'Z' ==> cs.fold(c) == c - 'A' + 'a')
    && (forall c: char :: c < 'A' || 'Z' < c < 128 as char ==> cs.fold(c) == c)
  }

  function Lower(cs: Chars, s: string): string {
    seq(|s|, i requires 0 <= i < |s| => cs.fold(s[i]))
  }

  predicate OccursAt(s: string, p: string, i: nat) {
    i + |p| <= |s| && s[i..i + |p|] == p
  }

  predicate Contains(s: string, p: string) {
    exists i: nat | i <= |s| :: OccursAt(s, p, i)
  }

  predicate Detect(cs: Chars, s: string) {
    s != "" && exists k | 0 <= k < |PATTERNS| :: Contains(Lower(cs, s), Lower(cs, PATTERNS[k]))
  }

  // ------------------------------------------------------------------ strings

  function Join(lines: seq<string>, sep: string): string {
    if lines == [] then ""
    else if |lines| == 1 then lines[0]
    else lines[0] + sep + Join(lines[1..], sep)
  }

  /** `strings.Split(s, "\n")`: at least one line, possibly empty. */
  function Lines(s: string): (lines: seq<string>)
    ensures lines != []
  {
    if s == "" then [""]
    else if s[0] == '\n' then [""] + Lines(s[1..])
    else
      var rest := Lines(s[1..]);
      [[s[0]] + rest[0]] + rest[1..]
  }

  lemma JoinLonger(first: string, rest: seq<string>, c: char)
    ensures Join([[c] + first] + rest, "\n") == [c] + Join([first] + rest, "\n")
  {
    assert ([[c] + first] + rest)[1..] == rest == ([first] + rest)[1..];
    if rest != [] {
      var tail := Join(rest, "\n");
      hide Join;
      assert ([c] + first) + "\n" + tail == [c] + (first + "\n" + tail);
    }
  }

  lemma JoinEmptyFirst(lines: seq<string>)
    requires lines != []
    ensures Join([""] + lines, "\n") == "\n" + Join(lines, "\n")
  {
    assert ([""] + lines)[1..] == lines;
  }

  /** Splitting loses nothing but the separators, which joining puts back. */
  lemma {:induction false} LinesRoundTrip(s: string)
    ensures Join(Lines(s), "\n") == s
    ensures forall line :: line in Lines(s) ==> '\n' !in line
  {
    if s != "" {
      LinesRoundTrip(s[1..]);
      var rest := Lines(s[1..]);
      JoinLonger(rest[0], rest[1..], s[0]);
      JoinEmptyFirst(rest);
      assert [rest[0]] + rest[1..] == rest;
      hide Join;
      assert s == [s[0]] + s[1..];
    }
  }

  function TrimLeft(cs: Chars, s: string): string {
    if s != "" && cs.space(s[0]) then TrimLeft(cs, s[1..]) else s
  }

  function TrimRight(cs: Chars, s: string): string {
    if s != "" && cs.space(s[|s| - 1]) then TrimRight(cs, s[..|s| - 1]) else s
  }

  function Trim(cs: Chars, s: string): string {
    TrimRight(cs, TrimLeft(cs, s))
  }

  lemma FoundMeansDetected(cs: Chars, s: string, k: nat)
    requires k < |PATTERNS| && Contains(Lower(cs, s), Lower(cs, PATTERNS[k]))
    ensures Detect(cs, s)
  {
    assert |Lower(cs, PATTERNS[k])| > 0;
  }

  lemma PartContains(s: string, lo: nat, hi: nat, p: string)
    requires lo <= hi <= |s| && Contains(s[lo..hi], p)
    ensures Contains(s, p)
  {
    var i: nat :| i <= hi - lo && OccursAt(s[lo..hi], p, i);
    var part := s[lo..hi];
    var found, there := part[i..i + |p|], s[lo + i..lo + i + |p|];
    forall j | 0 <= j < |p| ensures found[j] == there[j] {
      assert found[j] == part[i + j] == s[lo + i + j];
    }
    assert OccursAt(s, p, lo + i);
  }

  lemma DetectedPart(cs: Chars, s: string, lo: nat, hi: nat)
    requires lo <= hi <= |s| && Detect(cs, s[lo..hi])
    ensures Detect(cs, s)
  {
    var k :| 0 <= k < |PATTERNS| && Contains(Lower(cs, s[lo..hi]), Lower(cs, PATTERNS[k]));
    hide PATTERNS, Detect, Contains;
    assert Lower(cs, s[lo..hi]) == Lower(cs, s)[lo..hi];
    PartContains(Lower(cs, s), lo, hi, Lower(cs, PATTERNS[k]));
    FoundMeansDetected(cs, s, k);
  }

  lemma {:induction false} TrimRightStaysClean(cs: Chars, s: string)
    requires !Detect(cs, s)
    ensures !Detect(cs, TrimRight(cs, s))
  {
    if s != "" && cs.space(s[|s| - 1]) {
      if Detect(cs, s[0..|s| - 1]) {
        DetectedPart(cs, s, 0, |s| - 1);
      }
      assert s[0..|s| - 1] == s[..|s| - 1];
      TrimRightStaysClean(cs, s[..|s| - 1]);
    }
  }

  lemma {:induction false} TrimStaysClean(cs: Chars, s: string)
    requires !Detect(cs, s)
    ensures !Detect(cs, Trim(cs, s))
  {
    if s != "" && cs.space(s[0]) {
      if Detect(cs, s[1..|s|]) {
        DetectedPart(cs, s, 1, |s|);
      }
      assert s[1..|s|] == s[1..];
      TrimStaysClean(cs, s[1..]);
    } else {
      TrimRightStaysClean(cs, s);
    }
  }

  // ------------------------------------------- no pattern straddles a separator

  /** An occurrence in `a + [c] + b` of a text without `c` lies in `a` or in `b`. */
  lemma NotAcross(a: string, c: char, b: string, p: string)
    requires c !in p && Contains(a + [c] + b, p)
    ensures Contains(a, p) || Contains(b, p)
  {
    var s := a + [c] + b;
    var i: nat :| i <= |s| && OccursAt(s, p, i);
    assert s[|a|] == c;
    assert forall j :: i <= j < i + |p| ==> s[j] == p[j - i];
    if i + |p| <= |a| {
      assert OccursAt(a, p, i);
    } else if i > |a| {
      assert b[i - |a| - 1..i - |a| - 1 + |p|] == s[i..i + |p|];
      assert OccursAt(b, p, i - |a| - 1);
    }
  }

  lemma LowerConcat(cs: Chars, a: string, b: string)
    ensures Lower(cs, a + b) == Lower(cs, a) + Lower(cs, b)
  {
  }

  lemma PatternsHaveNoNewline(cs: Chars, k: nat)
    requires Faithful(cs) && k < |PATTERNS|
    ensures '\n' !in Lower(cs, PATTERNS[k])
  {
    assert '\n' !in PATTERNS[k];
    hide PATTERNS;
  }

  lemma {:induction false} JoinedLinesClean(cs: Chars, lines: seq<string>)
    requires Faithful(cs) && forall line :: line in lines ==> !Detect(cs, line)
    ensures !Detect(cs, Join(lines, "\n"))
  {
    if |lines| > 1 {
      var first, rest := lines[0], Join(lines[1..], "\n");
      JoinedLinesClean(cs, lines[1..]);
      assert first in lines;
      var all := first + "\n" + rest;
      if Detect(cs, all) {
        var k :| 0 <= k < |PATTERNS| && Contains(Lower(cs, all), Lower(cs, PATTERNS[k]));
        LowerConcat(cs, first + "\n", rest);
        LowerConcat(cs, first, "\n");
        assert Lower(cs, "\n") == ['\n'];
        PatternsHaveNoNewline(cs, k);
        NotAcross(Lower(cs, first), '\n', Lower(cs, rest), Lower(cs, PATTERNS[k]));
      }
    }
  }

  // ------------------------------------------------------------------ requests

  /** A message whose content is a text, or anything else, which is left alone. */
  datatype Message = Text(fields: string, content: string) | Other(raw: string)

  datatype Body = Unreadable(raw: string) | Request(fields: string, messages: seq<Message>)

  ghost function CleanLines(cs: Chars, lines: seq<string>): seq<string> {
    if lines == [] then []
    else
      var n := |lines| - 1;
      CleanLines(cs, lines[..n]) + if Detect(cs, lines[n]) then [] else [lines[n]]
  }

  ghost function CleanContent(cs: Chars, content: string): string {
    Trim(cs, Join(CleanLines(cs, Lines(content)), "\n"))
  }

  ghost predicate Dirty(cs: Chars, m: Message) {
    m.Text? && Detect(cs, m.content)
  }

  /** What becomes of one message: nothing, if only block text was in it. */
  ghost function CleanMessage(cs: Chars, m: Message): seq<Message> {
    if !Dirty(cs, m) then [m]
    else
      var content := CleanContent(cs, m.content);
      if content == "" then [] else [m.(content := content)]
  }

  ghost function CleanMessages(cs: Chars, messages: seq<Message>): seq<Message> {
    if messages == [] then []
    else
      var n := |messages| - 1;
      CleanMessages(cs, messages[..n]) + CleanMessage(cs, messages[n])
  }

  ghost predicate AllClean(cs: Chars, messages: seq<Message>) {
    forall m :: m in messages ==> !Dirty(cs, m)
  }

  /** `render` is the JSON text of a body. */
  ghost function Stripped(cs: Chars, render: Body -> string, body: Body): Body {
    if !Detect(cs, render(body)) || body.Unreadable? then body
    else
      var cleaned := CleanMessages(cs, body.messages);
      if AllClean(cs, body.messages) || cleaned == [] then body
      else body.(messages := cleaned)
  }

  method StripComplianceBlock(cs: Chars, render: Body -> string, body: Body) returns (out: Body)
    ensures out == Stripped(cs, render, body)
  {
    hide Detect, Trim;
    if !Detect(cs, render(body)) {
      return body;
    }
    if body.Unreadable? {
      return body;
    }
    var messages := body.messages;
    var changed := false;
    var cleaned: seq<Message> := [];
    var i := 0;
    while i < |messages|
      invariant i <= |messages|
      invariant changed == !AllClean(cs, messages[..i])
      invariant cleaned == CleanMessages(cs, messages[..i])
    {
      var m := messages[i];
      ghost var done := messages[..i];
      assert messages[..i + 1] == done + [m];
      CleanStep(cs, done, m);
      i := i + 1;
      if m.Other? || !Detect(cs, m.content) {
        cleaned := cleaned + [m];
        continue;
      }
      changed := true;
      var kept := KeptLines(cs, Lines(m.content));
      var remaining := Trim(cs, Join(kept, "\n"));
      if remaining == "" {
        continue;
      }
      cleaned := cleaned + [m.(content := remaining)];
    }
    assert messages[..i] == messages;
    if !changed {
      return body;
    }
    if |cleaned| == 0 {
      return body;
    }
    return body.(messages := cleaned);
  }

  method KeptLines(cs: Chars, lines: seq<string>) returns (kept: seq<string>)
    ensures kept == CleanLines(cs, lines)
  {
    hide Detect;
    kept := [];
    var i := 0;
    while i < |lines|
      invariant i <= |lines|
      invariant kept == CleanLines(cs, lines[..i])
    {
      assert lines[..i + 1][..i] == lines[..i];
      if !Detect(cs, lines[i]) {
        kept := kept + [lines[i]];
      }
      i := i + 1;
    }
    assert lines[..i] == lines;
  }

  lemma CleanStep(cs: Chars, done: seq<Message>, m: Message)
    ensures CleanMessages(cs, done + [m]) == CleanMessages(cs, done) + CleanMessage(cs, m)
    ensures AllClean(cs, done + [m]) <==> AllClean(cs, done) && !Dirty(cs, m)
  {
    hide Dirty, CleanMessage;
    assert (done + [m])[..|done|] == done;
  }

  lemma {:induction false} CleanLinesAreClean(cs: Chars, lines: seq<string>)
    ensures forall line :: line in CleanLines(cs, lines) ==> !Detect(cs, line)
    ensures IsSubsequence(CleanLines(cs, lines), lines)
    ensures forall line :: line in lines && !Detect(cs, line) ==> line in CleanLines(cs, lines)
  {
    hide Detect;
    if lines != [] {
      var n := |lines| - 1;
      var before, kept := lines[..n], CleanLines(cs, lines[..n]);
      CleanLinesAreClean(cs, before);
      SubsequenceAppend(kept, before, lines[n]);
      hide IsSubsequence;
      assert lines == before + [lines[n]] && kept + [] == kept;
    }
  }

  lemma CleanedMessageIsClean(cs: Chars, m: Message)
    requires Faithful(cs)
    ensures AllClean(cs, CleanMessage(cs, m))
  {
    if Dirty(cs, m) {
      hide Detect;
      var kept := CleanLines(cs, Lines(m.content));
      CleanLinesAreClean(cs, Lines(m.content));
      JoinedLinesClean(cs, kept);
      TrimStaysClean(cs, Join(kept, "\n"));
    }
  }

  /** No block text is left. */
  lemma {:induction false} CleaningIsSound(cs: Chars, messages: seq<Message>)
    requires Faithful(cs)
    ensures AllClean(cs, CleanMessages(cs, messages))
  {
    if messages != [] {
      var n := |messages| - 1;
      CleaningIsSound(cs, messages[..n]);
      CleanedMessageIsClean(cs, messages[n]);
      hide Dirty, CleanMessage, Faithful;
    }
  }

  /** The messages that had none are all still there, untouched and in order. */
  lemma {:induction false} CleaningSparesOthers(cs: Chars, messages: seq<Message>)
    ensures IsSubsequence(Untouched(cs, messages), CleanMessages(cs, messages))
    ensures AllClean(cs, messages) ==> CleanMessages(cs, messages) == messages
  {
    hide Dirty, CleanMessage;
    if messages != [] {
      var n := |messages| - 1;
      var before, m := messages[..n], messages[n];
      CleaningSparesOthers(cs, before);
      UntouchedStep(cs, Untouched(cs, before), CleanMessages(cs, before), m);
      hide IsSubsequence;
      assert messages == before + [m];
      if AllClean(cs, messages) {
        CleanStep(cs, before, m);
        CleanKeeps(cs, m);
      }
    }
  }

  lemma CleanKeeps(cs: Chars, m: Message)
    requires !Dirty(cs, m)
    ensures CleanMessage(cs, m) == [m]
  {
  }

  lemma UntouchedStep(cs: Chars, sub: seq<Message>, full: seq<Message>, m: Message)
    requires IsSubsequence(sub, full)
    ensures IsSubsequence(sub + (if Dirty(cs, m) then [] else [m]), full + CleanMessage(cs, m))
  {
    hide CleanContent, Dirty, IsSubsequence;
    assert sub + [] == sub && full + [] == full;
    var last := CleanMessage(cs, m);
    if last != [] {
      SubsequenceAppend(sub, full, last[0]);
    }
  }

  ghost function Untouched(cs: Chars, messages: seq<Message>): seq<Message> {
    if messages == [] then []
    else
      var n := |messages| - 1;
      Untouched(cs, messages[..n]) + if Dirty(cs, messages[n]) then [] else [messages[n]]
  }

  // -------------------------------------------------- what detecting and trimming mean

  /** Character by character: somewhere the text agrees with a pattern, up to case. */
  lemma DetectedExactly(cs: Chars, s: string)
    ensures Detect(cs, s) <==> exists k, i ::
              0 <= k < |PATTERNS| && 0 <= i <= |s| - |PATTERNS[k]| && AgreesAt(cs, s, PATTERNS[k], i)
  {
    hide PATTERNS;
    forall k, i | 0 <= k < |PATTERNS| && 0 <= i <= |s| - |PATTERNS[k]|
      ensures AgreesAt(cs, s, PATTERNS[k], i) <==> OccursAt(Lower(cs, s), Lower(cs, PATTERNS[k]), i)
    {
      AgreesMeansOccurs(cs, s, PATTERNS[k], i);
    }
    hide AgreesAt, OccursAt, Lower;
    PatternsAreLong();
    LowerKeepsLength(cs, s);
    if Detect(cs, s) {
      var k :| 0 <= k < |PATTERNS| && Contains(Lower(cs, s), Lower(cs, PATTERNS[k]));
      LowerKeepsLength(cs, PATTERNS[k]);
      var i: nat :| i <= |s| && OccursAt(Lower(cs, s), Lower(cs, PATTERNS[k]), i);
      OccursInside(Lower(cs, s), Lower(cs, PATTERNS[k]), i);
    }
    if k, i :| 0 <= k < |PATTERNS| && 0 <= i <= |s| - |PATTERNS[k]| && AgreesAt(cs, s, PATTERNS[k], i) {
      assert OccursAt(Lower(cs, s), Lower(cs, PATTERNS[k]), i);
      assert Contains(Lower(cs, s), Lower(cs, PATTERNS[k]));
    }
  }

  ghost predicate AgreesAt(cs: Chars, s: string, p: string, i: int)
    requires 0 <= i <= |s| - |p|
  {
    forall j :: 0 <= j < |p| ==> cs.fold(s[i + j]) == cs.fold(p[j])
  }

  lemma AgreesMeansOccurs(cs: Chars, s: string, p: string, i: int)
    requires 0 <= i <= |s| - |p|
    ensures AgreesAt(cs, s, p, i) <==> OccursAt(Lower(cs, s), Lower(cs, p), i)
  {
    var low, q := Lower(cs, s), Lower(cs, p);
    assert forall j :: 0 <= j < |p| ==> low[i..i + |q|][j] == cs.fold(s[i + j]) && q[j] == cs.fold(p[j]);
    if low[i..i + |q|] == q {
      assert forall j :: 0 <= j < |p| ==> low[i..i + |q|][j] == q[j];
    }
  }

  lemma OccursInside(s: string, p: string, i: nat)
    requires OccursAt(s, p, i)
    ensures i + |p| <= |s|
  {
  }

  lemma LowerKeepsLength(cs: Chars, s: string)
    ensures |Lower(cs, s)| == |s|
  {
  }

  lemma PatternsAreLong()
    ensures forall k :: 0 <= k < |PATTERNS| ==> |PATTERNS[k]| > 0
  {
  }

  ghost predicate OnlySpaces(cs: Chars, s: string) {
    forall c :: c in s ==> cs.space(c)
  }

  /** Trimming takes out the outer spaces and nothing else. */
  lemma TrimmedExactly(cs: Chars, s: string) returns (lo: nat, hi: nat)
    ensures lo <= hi <= |s| && Trim(cs, s) == s[lo..hi]
    ensures OnlySpaces(cs, s[..lo]) && OnlySpaces(cs, s[hi..])
    ensures lo < hi ==> !cs.space(s[lo]) && !cs.space(s[hi - 1])
    ensures Trim(cs, s) == "" <==> OnlySpaces(cs, s)
  {
    lo := LeftTrimmed(cs, s);
    var n := RightTrimmed(cs, s[lo..]);
    hi := lo + n;
    hide TrimLeft, TrimRight;
    assert s[lo..][..n] == s[lo..hi] && s[lo..][n..] == s[hi..];
    assert s == s[..lo] + s[lo..hi] + s[hi..];
  }

  lemma {:induction false} LeftTrimmed(cs: Chars, s: string) returns (lo: nat)
    ensures lo <= |s| && TrimLeft(cs, s) == s[lo..] && OnlySpaces(cs, s[..lo])
    ensures lo < |s| ==> !cs.space(s[lo])
  {
    if s != "" && cs.space(s[0]) {
      var n := LeftTrimmed(cs, s[1..]);
      lo := n + 1;
      assert s[1..][n..] == s[lo..] && s[..lo] == [s[0]] + s[1..][..n];
    } else {
      lo := 0;
    }
  }

  lemma {:induction false} RightTrimmed(cs: Chars, s: string) returns (n: nat)
    ensures n <= |s| && TrimRight(cs, s) == s[..n] && OnlySpaces(cs, s[n..])
    ensures n > 0 ==> !cs.space(s[n - 1])
  {
    n := |s|;
    if s != "" && cs.space(s[n - 1]) {
      n := RightTrimmed(cs, s[..n - 1]);
      assert s[..|s| - 1][..n] == s[..n] && s[n..] == s[..|s| - 1][n..] + [s[|s| - 1]];
    }
  }

  /** Of every clean line all copies are kept, and none of any other. */
  lemma {:induction false} CleanLinesCount(cs: Chars, lines: seq<string>, line: string)
    ensures multiset(CleanLines(cs, lines))[line] == if Detect(cs, line) then 0 else multiset(lines)[line]
  {
    hide Detect;
    if lines != [] {
      var n := |lines| - 1;
      CleanLinesCount(cs, lines[..n], line);
      assert lines == lines[..n] + [lines[n]];
    }
  }

  lemma {:induction false} JoinedSpaces(cs: Chars, lines: seq<string>)
    requires cs.space('\n')
    ensures OnlySpaces(cs, Join(lines, "\n")) <==> forall line :: line in lines ==> OnlySpaces(cs, line)
  {
    if |lines| > 1 {
      var rest := Join(lines[1..], "\n");
      assert Join(lines, "\n") == lines[0] + "\n" + rest;
      JoinedSpaces(cs, lines[1..]);
      SpacesConcat(cs, lines[0] + "\n", rest);
      SpacesConcat(cs, lines[0], "\n");
      assert lines == [lines[0]] + lines[1..];
      assert OnlySpaces(cs, "\n");
      hide Join, OnlySpaces;
    }
  }

  lemma SpacesConcat(cs: Chars, a: string, b: string)
    ensures OnlySpaces(cs, a + b) <==> OnlySpaces(cs, a) && OnlySpaces(cs, b)
  {
    assert forall c :: c in a + b <==> c in a || c in b;
  }

  /** What becomes of a message with the block text: it is removed if and only if its
      lines without that text hold nothing but spaces; otherwise it keeps its other
      fields, and its content is these lines, joined, without the outer spaces. */
  lemma CleanedExactly(cs: Chars, m: Message) returns (lo: nat, hi: nat)
    requires Dirty(cs, m) && cs.space('\n')
    ensures CleanMessage(cs, m) == [] <==>
              forall line :: line in Lines(m.content) && !Detect(cs, line) ==> OnlySpaces(cs, line)
    ensures var text := Join(CleanLines(cs, Lines(m.content)), "\n");
            && lo <= hi <= |text| && OnlySpaces(cs, text[..lo]) && OnlySpaces(cs, text[hi..])
            && (CleanMessage(cs, m) != [] ==>
                  && CleanMessage(cs, m) == [Text(m.fields, text[lo..hi])]
                  && lo < hi && !cs.space(text[lo]) && !cs.space(text[hi - 1]))
  {
    var kept := CleanLines(cs, Lines(m.content));
    lo, hi := TrimmedExactly(cs, Join(kept, "\n"));
    CleanLinesAreClean(cs, Lines(m.content));
    SubsequenceMembers(kept, Lines(m.content));
    JoinedSpaces(cs, kept);
    hide Detect, Lines, CleanLines, Join, Trim, OnlySpaces;
  }

  /** Messages are cleaned one by one, in order. */
  lemma {:induction false} CleanConcat(cs: Chars, a: seq<Message>, b: seq<Message>)
    ensures CleanMessages(cs, a + b) == CleanMessages(cs, a) + CleanMessages(cs, b)
  {
    hide CleanMessage;
    if b == [] {
      assert a + b == a && CleanMessages(cs, a) + [] == CleanMessages(cs, a);
    } else {
      var n := |b| - 1;
      CleanConcat(cs, a, b[..n]);
      assert (a + b)[..|a + b| - 1] == a + b[..n];
    }
  }

  lemma CleanOne(cs: Chars, m: Message)
    ensures CleanMessages(cs, [m]) == CleanMessage(cs, m)
  {
    hide CleanMessage;
    assert [m][..0] == [] && [] + CleanMessage(cs, m) == CleanMessage(cs, m);
  }

  /** A body comes out clean exactly if it went in clean, or its JSON text shows the
      block text and some message survives. */
  lemma StripsExactly(cs: Chars, render: Body -> string, body: Body)
    requires Faithful(cs) && body.Request?
    ensures Stripped(cs, render, body).Request? && Stripped(cs, render, body).fields == body.fields
    ensures Stripped(cs, render, body).messages
            == if Detect(cs, render(body)) && CleanMessages(cs, body.messages) != []
               then CleanMessages(cs, body.messages) else body.messages
    ensures AllClean(cs, Stripped(cs, render, body).messages)
            <==> AllClean(cs, body.messages)
                 || (Detect(cs, render(body)) && CleanMessages(cs, body.messages) != [])
  {
    hide Detect;
    CleaningIsSound(cs, body.messages);
    CleaningSparesOthers(cs, body.messages);
  }

  /** Cleaning twice is cleaning once. */
  lemma StripIdempotent(cs: Chars, render: Body -> string, body: Body)
    requires Faithful(cs)
    ensures Stripped(cs, render, Stripped(cs, render, body)) == Stripped(cs, render, body)
  {
    hide Detect;
    if body.Request? {
      CleaningIsSound(cs, body.messages);
    }
  }

  // ------------------------------------------------------- the injected message

  function Injected(body: Body, system: Message): Body
    requires body.Request?
  {
    body.(messages := [system] + body.messages)
  }

  /** After injecting a message without block text, only the gate decides: the body
      that goes upstream still starts with that message, and the client's own follow,
      cleaned or as they were. */
  lemma InjectedSurvives(cs: Chars, render: Body -> string, body: Body, system: Message)
    requires Faithful(cs) && body.Request? && !Dirty(cs, system)
    ensures var out := Stripped(cs, render, Injected(body, system));
            && out.Request? && |out.messages| > 0 && out.messages[0] == system && out.fields == body.fields
            && out.messages[1..]
               == (if Detect(cs, render(Injected(body, system)))
                   then CleanMessages(cs, body.messages) else body.messages)
            && (AllClean(cs, out.messages)
                <==> AllClean(cs, body.messages) || Detect(cs, render(Injected(body, system))))
  {
    hide Dirty;
    CleanFirst(cs, system, body.messages);
    StripsExactly(cs, render, Injected(body, system));
    assert forall m :: m in [system] + body.messages <==> m == system || m in body.messages;
  }

  lemma {:induction false} CleanFirst(cs: Chars, first: Message, rest: seq<Message>)
    requires !Dirty(cs, first)
    ensures CleanMessages(cs, [first] + rest) == [first] + CleanMessages(cs, rest)
  {
    CleanKeeps(cs, first);
    hide Dirty, CleanMessage;
    if rest == [] {
      assert [first] + rest == [] + [first];
      CleanStep(cs, [], first);
    } else {
      var n := |rest| - 1;
      var init, last := rest[..n], rest[n];
      assert rest == init + [last] && [first] + rest == ([first] + init) + [last];
      CleanFirst(cs, first, init);
      CleanStep(cs, [first] + init, last);
      CleanStep(cs, init, last);
    }
  }
}
