/**
 * The reflection generator of services/geminiService.ts: the text context it
 * sends, built from the newest entries, and the fixed mapping from what the
 * remote model did to the list of questions it returns. The remote call is
 * represented by its outcome.
 */
module Gemini {
  import opened Wrappers
  import opened Journal
  import opened Sequences

  const NO_KEY_MESSAGE: string := "Error: No API Key provided."
  const CLOUDY_MESSAGE: string := "The mirror is cloudy right now."

  /** How many of the newest entries go into the context. */
  const CONTEXT_LIMIT: nat := 50

  // ---------------------------------------------------------------------------
  // The context

  /** `iso.split('T')[0]`: the text before the first 'T', or all of it when there is none. */
  function DatePart(iso: string): (r: string)
    ensures |r| <= |iso| && r == iso[..|r|]
    ensures 'T' !in r
    ensures r == iso || iso[|r|] == 'T'
  {
    if iso == [] || iso[0] == 'T' then ""
    else
      var rest := DatePart(iso[1..]);
      assert iso == [iso[0]] + iso[1..];
      [iso[0]] + rest
  }

  /** One line of the context: the date in brackets, a space, and the entry text. */
  function ContextLine(e: Entry): string
  {
    "[" + DatePart(e.timestamp.iso) + "] " + e.text
  }

  /** One line per entry, in order. */
  function ContextLines(entries: seq<Entry>): (r: seq<string>)
    ensures |r| == |entries|
    ensures forall i | 0 <= i < |entries| :: r[i] == ContextLine(entries[i])
  {
    if entries == [] then [] else [ContextLine(entries[0])] + ContextLines(entries[1..])
  }

  /** `lines.join('\n')`: the lines with one newline between neighbours and none at the end. */
  function JoinLines(lines: seq<string>): (r: string)
    ensures lines == [] ==> r == ""
    ensures lines != [] ==> lines[0] <= r
  {
    if lines == [] then ""
    else if |lines| == 1 then lines[0]
    else lines[0] + "\n" + JoinLines(lines[1..])
  }

  /** `s.split('\n')`: the pieces between newlines; always at least one piece. */
  function SplitLines(s: string): (r: seq<string>)
    ensures |r| >= 1
  {
    if s == [] then [""]
    else
      var rest := SplitLines(s[1..]);
      if s[0] == '\n' then [""] + rest else [[s[0]] + rest[0]] + rest[1..]
  }

  /** The context sent to the model: the first `CONTEXT_LIMIT` entries, one line each. */
  function BuildContext(entries: seq<Entry>): (r: string)
    ensures entries == [] ==> r == ""
    ensures entries != [] ==> ContextLine(entries[0]) <= r && r[0] == '['
  {
    JoinLines(ContextLines(entries[..Min(|entries|, CONTEXT_LIMIT)]))
  }

  lemma {:induction false} SplitWithoutNewline(s: string)
    requires '\n' !in s
    ensures SplitLines(s) == [s]
  {
    if s != [] {
      SplitWithoutNewline(s[1..]);
      assert [s[0]] + s[1..] == s;
    }
  }

  lemma {:induction false} SplitAtFirstNewline(a: string, b: string)
    requires '\n' !in a
    ensures SplitLines(a + "\n" + b) == [a] + SplitLines(b)
  {
    if a == [] {
      assert a + "\n" + b == ['\n'] + b;
      assert (a + "\n" + b)[1..] == b;
    } else {
      SplitAtFirstNewline(a[1..], b);
      assert (a + "\n" + b)[1..] == a[1..] + "\n" + b;
      assert [a[0]] + a[1..] == a;
    }
  }

  /** Splitting the joined lines at newlines gives the lines back, when no line holds a newline itself. */
  lemma {:induction false} SplitJoinedLines(lines: seq<string>)
    requires lines != []
    requires forall i | 0 <= i < |lines| :: '\n' !in lines[i]
    ensures SplitLines(JoinLines(lines)) == lines
  {
    if |lines| == 1 {
      SplitWithoutNewline(lines[0]);
    } else {
      SplitJoinedLines(lines[1..]);
      SplitAtFirstNewline(lines[0], JoinLines(lines[1..]));
      assert [lines[0]] + lines[1..] == lines;
    }
  }

  /**
   * The context holds one line per entry for the first (at most 50) entries,
   * in their order, each "[date] text", with no separator after the last:
   * splitting it at newlines gives exactly those lines, when no entry's date
   * part or text contains a newline.
   */
  lemma ContextLinesAreTheNewestEntries(entries: seq<Entry>)
    requires entries != []
    requires forall i | 0 <= i < |entries| ::
      '\n' !in DatePart(entries[i].timestamp.iso) && '\n' !in entries[i].text
    ensures var lines := SplitLines(BuildContext(entries));
      && |lines| == Min(|entries|, CONTEXT_LIMIT)
      && forall i | 0 <= i < |lines| :: lines[i] == ContextLine(entries[i])
  {
    var first := entries[..Min(|entries|, CONTEXT_LIMIT)];
    var lines := ContextLines(first);
    forall i | 0 <= i < |lines| ensures '\n' !in lines[i] {
      assert first[i] == entries[i];
      assert lines[i] == "[" + DatePart(entries[i].timestamp.iso) + "] " + entries[i].text;
    }
    SplitJoinedLines(lines);
  }

  /** Entries after the 50th do not change the context. */
  lemma ContextIgnoresOlderEntries(a: seq<Entry>, b: seq<Entry>)
    requires |a| >= CONTEXT_LIMIT && |b| >= CONTEXT_LIMIT
    requires a[..CONTEXT_LIMIT] == b[..CONTEXT_LIMIT]
    ensures BuildContext(a) == BuildContext(b)
  {
  }

  // ---------------------------------------------------------------------------
  // The outcome

  /**
   * What happened once a client was wanted: creating the client threw (this is
   * outside the generator's `try`), the remote call threw, or it answered with
   * a text, which `JSON.parse` turns into a list of strings (`None` when
   * parsing throws).
   */
  datatype CallOutcome = ClientThrew | Threw | Responded(text: string, parsed: Option<seq<string>>)

  /**
   * What the generator does: it resolves, having sent the context (`None` when
   * it makes no call), with a list; or it rejects before sending anything.
   */
  datatype Generation = Resolved(sent: Option<string>, patterns: seq<string>) | Rejected

  /**
   * `generateLexicalReflection`: with no API key (the empty string stands for
   * an unset one) it returns the no-key message without calling the model;
   * otherwise it creates the client, which may throw, sends the context and
   * maps the outcome to a list.
   */
  function GenerateLexicalReflection(apiKey: string, entries: seq<Entry>, call: CallOutcome): (g: Generation)
    ensures g.Rejected? <==> apiKey != "" && call.ClientThrew?
    ensures g.Resolved? ==> (g.sent.None? <==> apiKey == "")
    ensures g.Resolved? && g.sent.Some? ==> g.sent.value == BuildContext(entries)
    ensures apiKey == "" ==> g == Resolved(None, [NO_KEY_MESSAGE])
    ensures apiKey != "" && (call.Threw? || (call.Responded? && call.text != "" && call.parsed.None?))
      ==> g.Resolved? && g.patterns == [CLOUDY_MESSAGE]
    ensures apiKey != "" && call.Responded? && call.text != "" && call.parsed.Some?
      ==> g.Resolved? && g.patterns == call.parsed.value
    ensures g.Resolved? && g.patterns == [] <==>
      apiKey != "" && call.Responded? && (call.text == "" || call.parsed == Some([]))
  {
    if apiKey == "" then Resolved(None, [NO_KEY_MESSAGE])
    else
      var context := BuildContext(entries);
      match call
      case ClientThrew => Rejected
      case Threw => Resolved(Some(context), [CLOUDY_MESSAGE])
      case Responded(text, parsed) =>
        if text == "" then Resolved(Some(context), [])
        else match parsed
          case None => Resolved(Some(context), [CLOUDY_MESSAGE])
          case Some(list) => Resolved(Some(context), list)
  }

  /** Every failure (no key, a throw, an unparseable answer) yields a one-element, non-empty list. */
  lemma FailuresYieldOneMessage(apiKey: string, entries: seq<Entry>, call: CallOutcome)
    requires apiKey == "" || call.Threw? || (call.Responded? && call.text != "" && call.parsed.None?)
    ensures GenerateLexicalReflection(apiKey, entries, call).Resolved?
    ensures |GenerateLexicalReflection(apiKey, entries, call).patterns| == 1
  {
  }
}
