// The message that the proxy puts in front of every conversation. It does not set off
// the block detector, so cleaning never takes it out again.
module SystemPrompt {
  import opened Compliance

  // The message, cut at spaces so that no piece has both a `p` and an `f`.
  const OPENING: seq<string> := [
    "You are MiMoCode, an", "interactive CLI tool", "that helps users with", "software engineering"]
  const TOOLS: seq<string> := [
    "tasks. Use the", "instructions below and", "the tools available to", "you to assist the"]
  const URLS: seq<string> := [
    "user.\n\nIMPORTANT: You", "must NEVER generate or", "guess URLs for the user", "unless you are"]
  const HELP: seq<string> := [
    "confident that the URLs", "are for", "helping the user with", "programming. You may"]
  const CLOSING: seq<string> := [
    "use URLs provided by", "the user in their", "messages or local files"]

  const PIECES := OPENING + TOOLS + URLS + HELP + CLOSING

  const SYSTEM_MESSAGE := Join(PIECES, " ")

  // A word of the third pattern. The other two have a hyphen.
  const WORD := "platform"

  ghost predicate Without(s: string, lower: char, upper: char) {
    forall i {:trigger s[i]} :: 0 <= i < |s| ==> s[i] < 128 as char && s[i] != '-' && s[i] != lower && s[i] != upper
  }

  /** A piece in which neither a hyphen nor that word can be found. */
  ghost predicate Harmless(s: string) {
    Without(s, 'p', 'P') || Without(s, 'f', 'F')
  }

  lemma PiecesAreHarmless(s: string)
    requires s in PIECES
    ensures Harmless(s)
  {
    if s in OPENING {
      OpeningIsHarmless(s);
    } else if s in TOOLS {
      ToolsAreHarmless(s);
    } else if s in URLS {
      UrlsAreHarmless(s);
    } else if s in HELP {
      HelpIsHarmless(s);
    } else {
      ClosingIsHarmless(s);
    }
  }

  lemma OpeningIsHarmless(s: string)
    requires s in OPENING
    ensures Harmless(s)
  {
    assert Without("You are MiMoCode, an", 'p', 'P');
    assert Without("interactive CLI tool", 'p', 'P');
    assert Without("that helps users with", 'f', 'F');
    assert Without("software engineering", 'p', 'P');
  }

  lemma ToolsAreHarmless(s: string)
    requires s in TOOLS
    ensures Harmless(s)
  {
    assert Without("tasks. Use the", 'p', 'P');
    assert Without("instructions below and", 'p', 'P');
    assert Without("the tools available to", 'p', 'P');
    assert Without("you to assist the", 'p', 'P');
  }

  lemma UrlsAreHarmless(s: string)
    requires s in URLS
    ensures Harmless(s)
  {
    assert Without("user.\n\nIMPORTANT: You", 'f', 'F');
    assert Without("must NEVER generate or", 'p', 'P');
    assert Without("guess URLs for the user", 'p', 'P');
    assert Without("unless you are", 'p', 'P');
  }

  lemma HelpIsHarmless(s: string)
    requires s in HELP
    ensures Harmless(s)
  {
    assert Without("confident that the URLs", 'p', 'P');
    assert Without("are for", 'p', 'P');
    assert Without("helping the user with", 'f', 'F');
    assert Without("programming. You may", 'f', 'F');
  }

  lemma ClosingIsHarmless(s: string)
    requires s in CLOSING
    ensures Harmless(s)
  {
    assert Without("use URLs provided by", 'f', 'F');
    assert Without("the user in their", 'p', 'P');
    assert Without("messages or local files", 'p', 'P');
  }

  /** Folding brings in no hyphen, no `p` and no `f`. */
  lemma FoldedIsHarmless(cs: Chars, s: string)
    requires Faithful(cs) && Harmless(s)
    ensures '-' !in Lower(cs, s) && !Contains(Lower(cs, s), WORD)
  {
    var low := Lower(cs, s);
    forall i: nat | i <= |low| ensures !OccursAt(low, WORD, i) {
      assert i + 8 <= |low| ==> low[i..i + 8][0] == low[i] && low[i..i + 8][4] == low[i + 4];
    }
  }

  lemma {:induction false} JoinedIsHarmless(cs: Chars, pieces: seq<string>)
    requires Faithful(cs) && forall s :: s in pieces ==> Harmless(s)
    ensures '-' !in Lower(cs, Join(pieces, " ")) && !Contains(Lower(cs, Join(pieces, " ")), WORD)
  {
    if pieces == [] {
    } else if |pieces| == 1 {
      FoldedIsHarmless(cs, pieces[0]);
    } else {
      var first, rest := pieces[0], Join(pieces[1..], " ");
      FoldedIsHarmless(cs, first);
      JoinedIsHarmless(cs, pieces[1..]);
      LowerConcat(cs, first + " ", rest);
      LowerConcat(cs, first, " ");
      assert Lower(cs, " ") == [' '];
      hide Harmless, Lower, Contains;
      if Contains(Lower(cs, first) + [' '] + Lower(cs, rest), WORD) {
        NotAcross(Lower(cs, first), ' ', Lower(cs, rest), WORD);
      }
    }
  }

  /** Every pattern has a hyphen or that word in it. */
  lemma PatternShows(cs: Chars, s: string, k: nat)
    requires Faithful(cs) && k < |PATTERNS| && Contains(s, Lower(cs, PATTERNS[k]))
    ensures '-' in s || Contains(s, WORD)
  {
    var p := Lower(cs, PATTERNS[k]);
    var i: nat :| i <= |s| && OccursAt(s, p, i);
    if k == 2 {
      WordShows(cs);
      assert p == s[i..i + |p|];
      hide PATTERNS, Lower;
      PartContains(p, 16, 24, WORD);
      PartContains(s, i, i + |p|, WORD);
    } else {
      var at := if k == 0 then 4 else 13;
      assert p[at] == '-' && s[i + at] == s[i..i + |p|][at];
    }
  }

  lemma WordShows(cs: Chars)
    requires Faithful(cs)
    ensures var p := Lower(cs, PATTERNS[2]); |p| >= 24 && Contains(p[16..24], WORD)
  {
    var p := Lower(cs, PATTERNS[2]);
    ThirdPattern();
    hide PATTERNS;
    assert p[16..24] == WORD;
    assert OccursAt(WORD, WORD, 0);
  }

  lemma ThirdPattern()
    ensures var q := PATTERNS[2];
      && |q| >= 24 && q[16] == 'p' && q[17] == 'l' && q[18] == 'a' && q[19] == 't'
      && q[20] == 'f' && q[21] == 'o' && q[22] == 'r' && q[23] == 'm'
  {
  }

  lemma SystemMessageUndetected(cs: Chars)
    requires Faithful(cs)
    ensures !Detect(cs, SYSTEM_MESSAGE)
  {
    forall s | s in PIECES ensures Harmless(s) {
      PiecesAreHarmless(s);
    }
    JoinedIsHarmless(cs, PIECES);
    if Detect(cs, SYSTEM_MESSAGE) {
      var k :| 0 <= k < |PATTERNS| && Contains(Lower(cs, SYSTEM_MESSAGE), Lower(cs, PATTERNS[k]));
      PatternShows(cs, Lower(cs, SYSTEM_MESSAGE), k);
    }
  }

  /** Whatever the client sent: the body that goes upstream starts with the system
      message, and it is clean if it was clean or the JSON text showed the block. */
  lemma SystemMessageSurvives(cs: Chars, render: Body -> string, body: Body, fields: string)
    requires Faithful(cs) && body.Request?
    ensures var system := Text(fields, SYSTEM_MESSAGE);
            var out := Stripped(cs, render, Injected(body, system));
            && out.Request? && |out.messages| > 0 && out.messages[0] == system
            && (AllClean(cs, out.messages)
                <==> AllClean(cs, body.messages) || Detect(cs, render(Injected(body, system))))
  {
    SystemMessageUndetected(cs);
    hide SYSTEM_MESSAGE, Detect, Stripped;
    InjectedSurvives(cs, render, body, Text(fields, SYSTEM_MESSAGE));
  }
}
