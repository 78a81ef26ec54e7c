// Forwarding an event stream to the client: the lines buffered for inspection, the
// rest of the stream, and the closing event.
module Stream {
  import opened Addresses

  const DONE := "\ndata: [DONE]\n\n"
  const CHECK_LINES: nat := 10

  /** The lines as they go out, each ended by a newline. */
  function Text(lines: seq<string>): string {
    if lines == [] then ""
    else Text(lines[..|lines| - 1]) + lines[|lines| - 1] + "\n"
  }

  /** `bufio.ScanLines`: a carriage return before the newline is dropped, and so is an
      empty last line. */
  function ScanLines(body: string): seq<string> {
    if body == "" then []
    else
      var n := IndexOf(body, '\n');
      [WithoutReturn(body[..n])] + if n < |body| then ScanLines(body[n + 1..]) else []
  }

  function WithoutReturn(line: string): string {
    if line != "" && line[|line| - 1] == '\r' then line[..|line| - 1] else line
  }

  /** What comes after the first `k` lines. */
  function AfterLines(body: string, k: nat): string {
    if k == 0 || body == "" then body
    else
      var n := IndexOf(body, '\n');
      if n < |body| then AfterLines(body[n + 1..], k - 1) else ""
  }

  lemma {:induction false} TextConcat(a: seq<string>, b: seq<string>)
    ensures Text(a + b) == Text(a) + Text(b)
  {
    if b == [] {
      assert a + b == a;
    } else {
      var n := |b| - 1;
      TextConcat(a, b[..n]);
      assert (a + b)[..|a + b| - 1] == a + b[..n];
      assert Text(a) + (Text(b[..n]) + b[n] + "\n") == (Text(a) + Text(b[..n])) + b[n] + "\n";
    }
  }

  /** A line as it is scanned: without a newline, and without a return at its end. */
  ghost predicate IsLine(line: string) {
    '\n' !in line && (line == "" || line[|line| - 1] != '\r')
  }

  /** What goes out is read back by the next line scanner as the same lines. */
  lemma {:induction false} TextRoundTrip(lines: seq<string>)
    requires forall i :: 0 <= i < |lines| ==> IsLine(lines[i])
    ensures ScanLines(Text(lines)) == lines
  {
    if lines != [] {
      var tail := lines[1..];
      TextRoundTrip(tail);
      TextConcat([lines[0]], tail);
      assert lines == [lines[0]] + tail;
      assert Text([lines[0]]) == lines[0] + "\n" by {
        assert [lines[0]][..0] == [];
        assert "" + lines[0] == lines[0];
      }
      ScanOne(lines[0], Text(tail));
      hide Text, ScanLines;
    }
  }

  lemma ScanOne(line: string, tail: string)
    requires IsLine(line)
    ensures ScanLines(line + "\n" + tail) == [line] + ScanLines(tail)
  {
    var body := line + "\n" + tail;
    assert body[|line|] == '\n' && body[..|line|] == line && body[|line| + 1..] == tail;
    IndexAfterPrefix(line, '\n', tail);
    assert body == line + ['\n'] + tail;
  }

  /** A line that ends in a return and a newline is read without either. */
  lemma ReturnIsDropped(line: string, tail: string)
    requires '\n' !in line
    ensures ScanLines(line + "\r\n" + tail) == [line] + ScanLines(tail)
  {
    var body, full := line + "\r\n" + tail, line + "\r";
    IndexAfterPrefix(full, '\n', tail);
    assert body == full + ['\n'] + tail;
    assert body[..|full|] == full && body[|full| + 1..] == tail && full[..|line|] == line;
    hide IndexOf;
  }

  /** The lines after the first `k` are those that the scanner finds after them. */
  lemma {:induction false} AfterLinesScanned(body: string, k: nat)
    ensures ScanLines(AfterLines(body, k)) == if k <= |ScanLines(body)| then ScanLines(body)[k..] else []
  {
    ScanStep(body);
    AfterStep(body, k);
    hide ScanLines, AfterLines;
    if k > 0 && body != "" {
      var n := IndexOf(body, '\n');
      if n < |body| {
        AfterLinesScanned(body[n + 1..], k - 1);
      }
    }
  }

  lemma ScanStep(body: string)
    ensures ScanLines("") == []
    ensures var n := IndexOf(body, '\n');
            body != "" ==>
              ScanLines(body) == [WithoutReturn(body[..n])] + if n < |body| then ScanLines(body[n + 1..]) else []
  {
    hide WithoutReturn, IndexOf, AfterLines;
  }

  lemma AfterStep(body: string, k: nat)
    ensures k == 0 || body == "" ==> AfterLines(body, k) == body
    ensures var n := IndexOf(body, '\n');
            k > 0 && body != "" ==>
              AfterLines(body, k) == if n < |body| then AfterLines(body[n + 1..], k - 1) else ""
  {
    hide WithoutReturn, IndexOf, ScanLines;
  }

  lemma TextStep(before: string, lines: seq<string>, n: nat)
    requires n < |lines|
    ensures before + Text(lines[..n]) + (lines[n] + "\n") == before + Text(lines[..n + 1])
  {
    assert lines[..n + 1][..n] == lines[..n];
    var text := Text(lines[..n]);
    hide Text;
    assert before + text + (lines[n] + "\n") == before + (text + lines[n] + "\n");
  }

  /** The line scanner over the upstream body: what it yields before the end of the
      stream, be that a clean end or a read error. */
  class Scanner {
    const lines: seq<string>
    var pos: nat

    ghost predicate Valid()
      reads this
    {
      pos <= |lines|
    }

    ghost function Rest(): seq<string>
      reads this
      requires Valid()
    {
      lines[pos..]
    }

    constructor (lines: seq<string>)
      ensures Valid() && this.lines == lines && Rest() == lines
    {
      this.lines := lines;
      pos := 0;
    }

    lemma RestIs()
      requires Valid()
      ensures Rest() == lines[pos..] && pos + |Rest()| == |lines|
    {
    }

    method Scan() returns (more: bool, line: string)
      requires Valid()
      modifies this
      ensures Valid()
      ensures more <==> old(Rest()) != []
      ensures more ==> line == old(Rest())[0] && Rest() == old(Rest())[1..]
      ensures !more ==> Rest() == []
      ensures if more then pos == old(pos) + 1 && line == lines[old(pos)] else pos == old(pos) == |lines|
    {
      if pos == |lines| {
        return false, "";
      }
      line := lines[pos];
      pos := pos + 1;
      more := true;
    }
  }

  /** The client's end: `accepts(k)` says whether the k-th write goes through. */
  class Writer {
    var text: string
    var count: nat
    const accepts: nat -> bool

    constructor (accepts: nat -> bool)
      ensures text == "" && count == 0 && this.accepts == accepts
    {
      text, count := "", 0;
      this.accepts := accepts;
    }

    method Write(chunk: string) returns (ok: bool)
      modifies this
      ensures ok == accepts(old(count)) && count == old(count) + 1
      ensures text == old(text) + if ok then chunk else ""
    {
      ok := accepts(count);
      count := count + 1;
      if ok {
        text := text + chunk;
      }
    }

    /** Best effort: a failing write is not reported. */
    method SendDone()
      modifies this
      ensures count == old(count) + 1
      ensures text == old(text) + if accepts(old(count)) then DONE else ""
    {
      var _ := Write(DONE);
    }
  }

  /** The thinking timeout strikes after the k-th line: the clock is late and no line
      forwarded so far has shown any content. */
  ghost predicate CutAfter(rest: seq<string>, shows: string -> bool, late: nat -> bool, k: nat) {
    && 0 < k <= |rest| && late(k - 1)
    && forall i :: 0 <= i < k ==> !shows(rest[i])
  }

  /** `n` lines went out, starting with write number `first`, and nothing stopped it. */
  ghost predicate Undisturbed(rest: seq<string>, shows: string -> bool, late: nat -> bool,
                              accepts: nat -> bool, first: nat, n: nat) {
    && n <= |rest|
    && (forall j :: first <= j < first + n ==> accepts(j))
    && (forall k :: 0 <= k <= n ==> !CutAfter(rest, shows, late, k))
  }

  /** How far forwarding gets: `n` lines, then a write that fails, the end of the
      stream, or a timeout. */
  ghost predicate Forwards(rest: seq<string>, shows: string -> bool, late: nat -> bool,
                           accepts: nat -> bool, first: nat, n: nat, failed: bool) {
    && n <= |rest|
    && if failed then
         n < |rest| && Undisturbed(rest, shows, late, accepts, first, n) && !accepts(first + n)
       else
         || (n == |rest| && Undisturbed(rest, shows, late, accepts, first, n))
         || (n > 0 && Undisturbed(rest, shows, late, accepts, first, n - 1) && accepts(first + n - 1)
             && CutAfter(rest, shows, late, n))
  }

  /** One of the first `n` lines shows content. */
  ghost predicate ContentIn(rest: seq<string>, shows: string -> bool, n: nat) {
    exists i :: 0 <= i < n && i < |rest| && shows(rest[i])
  }

  lemma ContentStep(rest: seq<string>, shows: string -> bool, n: nat)
    requires n < |rest|
    ensures ContentIn(rest, shows, n + 1) <==> ContentIn(rest, shows, n) || shows(rest[n])
  {
  }

  lemma ForwardOne(rest: seq<string>, shows: string -> bool, late: nat -> bool,
                   accepts: nat -> bool, first: nat, n: nat, seen: bool)
    requires n < |rest| && Undisturbed(rest, shows, late, accepts, first, n) && accepts(first + n)
    requires seen <==> ContentIn(rest, shows, n + 1)
    ensures if !seen && late(n) then Forwards(rest, shows, late, accepts, first, n + 1, false)
            else Undisturbed(rest, shows, late, accepts, first, n + 1)
  {
    assert CutAfter(rest, shows, late, n + 1) <==> !seen && late(n);
  }

  lemma ForwardNothing(rest: seq<string>, shows: string -> bool, late: nat -> bool,
                       accepts: nat -> bool, first: nat)
    ensures Undisturbed(rest, shows, late, accepts, first, 0) && !ContentIn(rest, shows, 0) && Text(rest[..0]) == ""
  {
  }

  lemma ForwardsSoFar(rest: seq<string>, shows: string -> bool, late: nat -> bool,
                      accepts: nat -> bool, first: nat, n: nat)
    requires Undisturbed(rest, shows, late, accepts, first, n)
    ensures n == |rest| ==> Forwards(rest, shows, late, accepts, first, n, false)
    ensures n < |rest| && !accepts(first + n) ==> Forwards(rest, shows, late, accepts, first, n, true)
  {
  }

  /** Nil with exactly one closing event, or a write error with none. */
  method StreamFromScanner(scanner: Scanner, w: Writer, shows: string -> bool, late: nat -> bool,
                           ghost rest: seq<string>)
    returns (failed: bool, n: nat)
    requires scanner.Valid() && rest == scanner.Rest()
    modifies scanner, w
    ensures scanner.Valid()
    ensures n <= |rest| && Forwards(rest, shows, late, w.accepts, old(w.count), n, failed)
    ensures w.text == old(w.text) + Text(rest[..n])
                      + (if !failed && w.accepts(old(w.count) + n) then DONE else "")
    ensures w.count == old(w.count) + n + 1
  {
    hide *;
    ghost var before, first, start := w.text, w.count, scanner.pos;
    ForwardNothing(rest, shows, late, w.accepts, first);
    scanner.RestIs();
    var hasContent := false;
    n := 0;
    var more, line := scanner.Scan();
    while more
      invariant scanner.Valid() && n <= |rest| && w.count == first + n && w.text == before + Text(rest[..n])
      invariant if more then n < |rest| && line == rest[n] && scanner.pos == start + n + 1
                else n == |rest| && scanner.pos == |scanner.lines|
      invariant Undisturbed(rest, shows, late, w.accepts, first, n)
      invariant hasContent <==> ContentIn(rest, shows, n)
      decreases |rest| - n
    {
      ContentStep(rest, shows, n);
      if !hasContent {
        if shows(line) {
          hasContent := true;
        }
      }
      var ok := w.Write(line + "\n");
      if !ok {
        ForwardsSoFar(rest, shows, late, w.accepts, first, n);
        return true, n;
      }
      TextStep(before, rest, n);
      ForwardOne(rest, shows, late, w.accepts, first, n, hasContent);
      n := n + 1;
      if !hasContent && late(n - 1) {
        w.SendDone();
        return false, n;
      }
      more, line := scanner.Scan();
    }
    ForwardsSoFar(rest, shows, late, w.accepts, first, n);
    w.SendDone();
    return false, n;
  }

  /** The stream of a retry that is forwarded from its first line on. */
  method StreamSSE(lines: seq<string>, w: Writer, shows: string -> bool, late: nat -> bool)
    returns (failed: bool, n: nat)
    modifies w
    ensures n <= |lines| && Forwards(lines, shows, late, w.accepts, old(w.count), n, failed)
    ensures w.text == old(w.text) + Text(lines[..n])
                      + (if !failed && w.accepts(old(w.count) + n) then DONE else "")
  {
    hide *;
    var scanner := new Scanner(lines);
    failed, n := StreamFromScanner(scanner, w, shows, late, lines);
  }

  /** The buffering loop scans before it counts, so with more than ten lines it takes
      an eleventh one and keeps only ten. */
  method BufferLines(scanner: Scanner) returns (buf: string, linesRead: nat)
    requires scanner.Valid()
    modifies scanner
    ensures scanner.Valid()
    ensures linesRead == if |old(scanner.Rest())| < CHECK_LINES then |old(scanner.Rest())| else CHECK_LINES
    ensures buf == Text(old(scanner.Rest())[..linesRead])
    ensures scanner.Rest() == if |old(scanner.Rest())| <= CHECK_LINES then []
                              else old(scanner.Rest())[CHECK_LINES + 1..]
  {
    ghost var rest := scanner.Rest();
    buf, linesRead := "", 0;
    var more, line := scanner.Scan();
    while more && linesRead < CHECK_LINES
      invariant scanner.Valid() && linesRead <= |rest| && linesRead <= CHECK_LINES
      invariant buf == "" + Text(rest[..linesRead])
      invariant more <==> linesRead < |rest|
      invariant if more then line == rest[linesRead] && scanner.Rest() == rest[linesRead + 1..]
                else scanner.Rest() == []
    {
      TextStep("", rest, linesRead);
      buf := buf + (line + "\n");
      linesRead := linesRead + 1;
      more, line := scanner.Scan();
    }
  }

  /** What the client gets to see of the upstream's lines. */
  function Relayed(lines: seq<string>): seq<string> {
    if |lines| <= CHECK_LINES then lines else lines[..CHECK_LINES] + lines[CHECK_LINES + 1..]
  }

  /** The client takes every write. */
  ghost predicate Willing(accepts: nat -> bool) {
    forall k :: accepts(k)
  }

  /** And the clock is never late. */
  ghost predicate Smooth(accepts: nat -> bool, late: nat -> bool) {
    Willing(accepts) && (forall k :: !late(k))
  }

  function Buffered(lines: seq<string>): seq<string> {
    if |lines| <= CHECK_LINES then lines else lines[..CHECK_LINES]
  }

  /** A reply that passed inspection: the buffer in one write whose failure nobody
      looks at, then the rest of the stream. With nothing going wrong the client gets
      every line but the eleventh, and one closing event. */
  method RelaySSE(lines: seq<string>, w: Writer, shows: string -> bool, late: nat -> bool)
    returns (failed: bool, n: nat)
    modifies w
    ensures n <= |Unbuffered(lines)| && Forwards(Unbuffered(lines), shows, late, w.accepts, old(w.count) + 1, n, failed)
    ensures Willing(w.accepts) ==>
      !failed && w.text == old(w.text) + Text(Buffered(lines)) + Text(Unbuffered(lines)[..n]) + DONE
    ensures Smooth(w.accepts, late) ==> !failed && w.text == old(w.text) + Text(Relayed(lines)) + DONE
  {
    hide *;
    ghost var before := w.text;
    var scanner := new Scanner(lines);
    var buf, linesRead := BufferLines(scanner);
    BufferedIs(lines, linesRead);
    var _ := w.Write(buf);
    failed, n := StreamFromScanner(scanner, w, shows, late, Unbuffered(lines));
    RelayOutcome(before, w.text, lines, shows, late, w.accepts, old(w.count), n, failed);
  }

  /** What became of the text, given that the first write went to the buffer. */
  lemma RelayOutcome(before: string, after: string, lines: seq<string>, shows: string -> bool, late: nat -> bool,
                     accepts: nat -> bool, first: nat, n: nat, failed: bool)
    requires n <= |Unbuffered(lines)| && Forwards(Unbuffered(lines), shows, late, accepts, first + 1, n, failed)
    requires after == before + (if accepts(first) then Text(Buffered(lines)) else "")
                      + Text(Unbuffered(lines)[..n]) + (if !failed && accepts(first + 1 + n) then DONE else "")
    ensures Willing(accepts) ==>
      !failed && after == before + Text(Buffered(lines)) + Text(Unbuffered(lines)[..n]) + DONE
    ensures Smooth(accepts, late) ==> !failed && after == before + Text(Relayed(lines)) + DONE
  {
    SmoothAccepts(accepts, late);
    hide Text, Forwards, Relayed, Smooth, Willing;
    if Willing(accepts) {
      NoWriteFails(Unbuffered(lines), shows, late, accepts, first + 1, n, failed);
    }
    if Smooth(accepts, late) {
      UndisturbedToTheEnd(Unbuffered(lines), shows, late, accepts, first + 1, n, failed);
      RelayedText(before, lines);
    }
  }

  lemma SmoothAccepts(accepts: nat -> bool, late: nat -> bool)
    ensures Smooth(accepts, late) ==> Willing(accepts)
    ensures Willing(accepts) ==> forall k :: accepts(k)
  {
  }

  lemma NoWriteFails(rest: seq<string>, shows: string -> bool, late: nat -> bool,
                     accepts: nat -> bool, first: nat, n: nat, failed: bool)
    requires Forwards(rest, shows, late, accepts, first, n, failed) && Willing(accepts)
    ensures !failed
  {
  }

  lemma UndisturbedToTheEnd(rest: seq<string>, shows: string -> bool, late: nat -> bool,
                            accepts: nat -> bool, first: nat, n: nat, failed: bool)
    requires Forwards(rest, shows, late, accepts, first, n, failed)
    requires Smooth(accepts, late)
    ensures !failed && n == |rest| && rest[..n] == rest
  {
  }

  lemma RelayedText(before: string, lines: seq<string>)
    ensures before + Text(Buffered(lines)) + Text(Unbuffered(lines)) + DONE
            == before + Text(Relayed(lines)) + DONE
  {
    var a, b := Buffered(lines), Unbuffered(lines);
    TextConcat(a, b);
    assert a + b == Relayed(lines);
    hide Text, Buffered, Unbuffered, Relayed;
    assert before + Text(a) + Text(b) == before + (Text(a) + Text(b));
  }

  lemma BufferedIs(lines: seq<string>, linesRead: nat)
    requires linesRead == if |lines| < CHECK_LINES then |lines| else CHECK_LINES
    ensures lines[..linesRead] == Buffered(lines)
    ensures Unbuffered(lines) == if |lines| <= CHECK_LINES then [] else lines[CHECK_LINES + 1..]
  {
  }

  ghost function Unbuffered(lines: seq<string>): seq<string> {
    if |lines| <= CHECK_LINES then [] else lines[CHECK_LINES + 1..]
  }

  /** The client sees the whole stream exactly if it has at most ten lines. */
  lemma RelayedCompletely(lines: seq<string>)
    ensures Text(Relayed(lines)) == Text(lines) <==> |lines| <= 10
  {
    hide Text;
    if |lines| > CHECK_LINES {
      var head, tail := lines[..CHECK_LINES], lines[CHECK_LINES + 1..];
      LosesOne(head, lines[CHECK_LINES], tail);
      assert lines == head + [lines[CHECK_LINES]] + tail;
    }
  }

  lemma LosesOne(head: seq<string>, lost: string, tail: seq<string>)
    ensures |Text(head + tail)| < |Text(head + [lost] + tail)|
  {
    TextConcat(head, tail);
    TextConcat(head + [lost], tail);
    TextConcat(head, [lost]);
    assert Text([lost]) == Text([]) + lost + "\n";
    hide Text;
  }

  /** Content seen among the buffered lines does not count: although it keeps a relay
      of all lines going, the rest can still be cut off by the clock, if and only if it
      has a second line and its first one shows no content. */
  lemma BufferedContentForgotten(lines: seq<string>, shows: string -> bool, accepts: nat -> bool, first: nat)
    requires ContentIn(lines, shows, CHECK_LINES)
    requires forall k :: accepts(k)
    ensures forall late, n: nat :: CHECK_LINES <= n < |lines| ==>
      !Forwards(lines, shows, late, accepts, first, n, false)
    ensures var rest := Unbuffered(lines);
            (exists late, n: nat :: n < |rest| && Forwards(rest, shows, late, accepts, first, n, false))
            <==> |rest| > 1 && !shows(rest[0])
  {
    var rest := Unbuffered(lines);
    if |rest| > 1 && !shows(rest[0]) {
      var late := (k: nat) => true;
      assert CutAfter(rest, shows, late, 1) && Undisturbed(rest, shows, late, accepts, first, 0);
      assert Forwards(rest, shows, late, accepts, first, 1, false);
    }
  }
}
