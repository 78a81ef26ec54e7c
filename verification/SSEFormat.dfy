// Whether buffered text looks like an event stream: a verdict on its lines, of which
// the first telling one decides.
module SSEFormat {
  import opened Compliance

  const FIELDS: seq<string> := ["data:", "event:", "id:", "retry:"]

  predicate IsField(line: string) {
    exists k :: 0 <= k < |FIELDS| && FIELDS[k] <= line
  }

  /** The start of a JSON text. */
  predicate OpensJSON(line: string) {
    line != "" && (line[0] == '{' || line[0] == '[')
  }

  /** Empty lines, comments and anything else that tells nothing are passed over. */
  predicate Verdict(cs: Chars, lines: seq<string>) {
    if lines == [] then false
    else
      var line := Trim(cs, lines[0]);
      IsField(line) || (!OpensJSON(line) && Verdict(cs, lines[1..]))
  }

  predicate ValidSSE(cs: Chars, text: string) {
    Verdict(cs, Lines(text))
  }

  method IsValidSSEBuffer(cs: Chars, text: string) returns (valid: bool)
    ensures valid == ValidSSE(cs, text)
  {
    var lines := Lines(text);
    var i := 0;
    while i < |lines|
      invariant i <= |lines| && Verdict(cs, lines) == Verdict(cs, lines[i..])
    {
      var trimmed := Trim(cs, lines[i]);
      i := i + 1;
      if trimmed == "" || trimmed[0] == ':' {
        NothingInIt(trimmed);
        continue;
      }
      if IsField(trimmed) {
        return true;
      }
      if trimmed[0] == '{' || trimmed[0] == '[' {
        return false;
      }
    }
    return false;
  }

  lemma NothingInIt(line: string)
    requires line == "" || line[0] == ':'
    ensures !IsField(line) && !OpensJSON(line)
  {
  }

  /** Apart from spaces, the line at `i` starts with the name of a field, and no line
      before it opens a JSON text. */
  ghost predicate FieldAt(cs: Chars, lines: seq<string>, i: nat) {
    && i < |lines| && IsField(Trim(cs, lines[i]))
    && forall j :: 0 <= j < i ==> !OpensJSON(Trim(cs, lines[j]))
  }

  lemma FieldAtShift(cs: Chars, lines: seq<string>, i: nat)
    requires lines != []
    ensures FieldAt(cs, lines, 0) <==> IsField(Trim(cs, lines[0]))
    ensures FieldAt(cs, lines, i + 1) <==> !OpensJSON(Trim(cs, lines[0])) && FieldAt(cs, lines[1..], i)
  {
    hide Trim, IsField, OpensJSON;
    if FieldAt(cs, lines, i + 1) {
      forall j | 0 <= j < i ensures !OpensJSON(Trim(cs, lines[1..][j])) {
        assert lines[1..][j] == lines[j + 1];
      }
    }
    if !OpensJSON(Trim(cs, lines[0])) && FieldAt(cs, lines[1..], i) {
      forall j | 0 < j < i + 1 ensures !OpensJSON(Trim(cs, lines[j])) {
        assert lines[1..][j - 1] == lines[j];
      }
    }
  }

  lemma {:induction false} VerdictExactly(cs: Chars, lines: seq<string>)
    ensures Verdict(cs, lines) <==> exists i: nat :: FieldAt(cs, lines, i)
  {
    if lines != [] {
      VerdictExactly(cs, lines[1..]);
      FieldAtShift(cs, lines, 0);
      hide Trim, IsField, OpensJSON, FieldAt;
      if i: nat :| FieldAt(cs, lines[1..], i) {
        FieldAtShift(cs, lines, i);
        assert FieldAt(cs, lines, i + 1) || OpensJSON(Trim(cs, lines[0]));
      }
      if i: nat :| FieldAt(cs, lines, i) {
        if i > 0 {
          FieldAtShift(cs, lines, i - 1);
        }
      }
    }
  }

  /** A text is taken for an event stream if and only if such a line is in it; so an
      empty text is not. */
  lemma ValidExactly(cs: Chars, text: string)
    ensures ValidSSE(cs, text) <==> exists i: nat :: FieldAt(cs, Lines(text), i)
    ensures text == "" ==> !ValidSSE(cs, text)
  {
    hide *;
    ValidIs(cs, text);
    VerdictExactly(cs, Lines(text));
  }

  lemma ValidIs(cs: Chars, text: string)
    ensures ValidSSE(cs, text) == Verdict(cs, Lines(text))
    ensures text == "" ==> !ValidSSE(cs, text)
  {
    if text == "" {
      var none := Trim(cs, "");
      assert none == "";
      NothingInIt(none);
      assert Lines(text)[1..] == [];
    }
  }

  /** Nor is one in which a JSON text opens before any field. */
  lemma JSONIsNoSSE(cs: Chars, text: string, k: nat)
    requires k < |Lines(text)| && OpensJSON(Trim(cs, Lines(text)[k]))
    requires forall j :: 0 <= j < k ==> !IsField(Trim(cs, Lines(text)[j]))
    ensures !ValidSSE(cs, text)
  {
    VerdictExactly(cs, Lines(text));
    NotBoth(Trim(cs, Lines(text)[k]));
    hide Trim, Lines, IsField, OpensJSON;
    assert forall i: nat :: !FieldAt(cs, Lines(text), i);
  }

  lemma NotBoth(line: string)
    ensures !(IsField(line) && OpensJSON(line))
  {
  }
}
