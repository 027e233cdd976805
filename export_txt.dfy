/**
 * The plain-text export route: a BOM-prefixed eight-line body and an
 * attachment filename built from the sanitized title and an ISO 8601
 * timestamp. The clock is a parameter: `exported` is the locale string and
 * `iso` the `toISOString` value of the export moment.
 */
module ExportTxt {

  import opened Wrappers
  import opened JsString

  // ---------------------------------------------------------------------------
  // sanitize: name.replace(/[^\w\-]+/g, '_').slice(0, 60)
  // ---------------------------------------------------------------------------

  const MaxNameLength: nat := 60

  /** The characters of the class `[\w\-]` without the `u` flag: ASCII letters, digits, `_` and `-`. */
  predicate IsNameChar(c: char) {
    ('A' <= c <= 'Z') || ('a' <= c <= 'z') || ('0' <= c <= '9') || c == '_' || c == '-'
  }

  predicate AllNameChars(s: string) {
    forall i :: 0 <= i < |s| ==> IsNameChar(s[i])
  }

  predicate NoNameChars(s: string) {
    forall i :: 0 <= i < |s| ==> !IsNameChar(s[i])
  }

  /**
   * The global replace, read left to right: a name character is copied, the
   * first character of a run of other characters becomes `_`, and the rest
   * of that run is dropped. `inRun` says whether the previous character
   * belonged to such a run.
   */
  function ReplaceFrom(s: string, inRun: bool): (r: string)
    ensures AllNameChars(r) && |r| <= |s|
  {
    if s == [] then []
    else if IsNameChar(s[0]) then [s[0]] + ReplaceFrom(s[1..], false)
    else if inRun then ReplaceFrom(s[1..], true)
    else "_" + ReplaceFrom(s[1..], true)
  }

  /** `name.replace(/[^\w\-]+/g, '_')` */
  function ReplaceRuns(s: string): (r: string)
    ensures AllNameChars(r) && |r| <= |s|
  {
    ReplaceFrom(s, false)
  }

  /** `sanitize(name)`: only name characters, at most 60 of them. */
  function Sanitize(name: string): (r: string)
    ensures AllNameChars(r) && |r| <= MaxNameLength
  {
    Take(ReplaceRuns(name), MaxNameLength)
  }

  /** Whether the end of `s` is inside a run of disallowed characters, starting from `inRun`. */
  function EndsInRun(s: string, inRun: bool): bool {
    if s == [] then inRun else !IsNameChar(s[|s| - 1])
  }

  /** The replace of a concatenation is the replace of each part, the second resumed in the first's state. */
  lemma {:induction false} ReplaceFromAppend(a: string, b: string, inRun: bool)
    ensures ReplaceFrom(a + b, inRun) == ReplaceFrom(a, inRun) + ReplaceFrom(b, EndsInRun(a, inRun))
    decreases |a|
  {
    if a == [] {
      assert a + b == b;
    } else {
      var c := a + b;
      assert c[0] == a[0] && c[1..] == a[1..] + b;
      var next := !IsNameChar(a[0]);
      ReplaceFromAppend(a[1..], b, next);
      assert EndsInRun(a[1..], next) == EndsInRun(a, inRun) by {
        if a[1..] != [] { assert a[1..][|a[1..]| - 1] == a[|a| - 1]; }
      }
      var head := if IsNameChar(a[0]) then [a[0]] else if inRun then [] else "_";
      assert ReplaceFrom(c, inRun) == head + ReplaceFrom(c[1..], next);
      assert ReplaceFrom(a, inRun) == head + ReplaceFrom(a[1..], next);
      Assoc(head, ReplaceFrom(a[1..], next), ReplaceFrom(b, EndsInRun(a, inRun)));
    }
  }

  lemma Assoc(x: string, y: string, z: string)
    ensures x + (y + z) == (x + y) + z
  {
  }

  /** A string that starts with a name character is replaced the same way whatever came before. */
  lemma ReplaceFromNamedStart(s: string)
    requires s != [] && IsNameChar(s[0])
    ensures ReplaceFrom(s, true) == ReplaceFrom(s, false)
  {
  }

  /** The last character of `a` and the first of `b` do not both belong to one disallowed run. */
  predicate RunBoundary(a: string, b: string) {
    a == [] || b == [] || IsNameChar(a[|a| - 1]) || IsNameChar(b[0])
  }

  /**
   * The replace works run by run: cutting the input where no disallowed run
   * is split replaces each part separately. With ReplaceRunsKeepsNameChars
   * and ReplaceRunsOfRun this determines the replace on every input, since
   * every string is a concatenation of maximal runs.
   */
  lemma ReplaceRunsAppend(a: string, b: string)
    requires RunBoundary(a, b)
    ensures ReplaceRuns(a + b) == ReplaceRuns(a) + ReplaceRuns(b)
  {
    ReplaceFromAppend(a, b, false);
    if EndsInRun(a, false) && b != [] {
      ReplaceFromNamedStart(b);
    }
  }

  /** A string made of allowed characters is left unchanged by the replace. */
  lemma {:induction false} ReplaceRunsKeepsNameChars(s: string)
    requires AllNameChars(s)
    ensures ReplaceRuns(s) == s
    decreases |s|
  {
    if s != [] {
      ReplaceRunsKeepsNameChars(s[1..]);
      assert [s[0]] + s[1..] == s;
    }
  }

  lemma {:induction false} RunInsideRun(d: string)
    requires NoNameChars(d)
    ensures ReplaceFrom(d, true) == []
    decreases |d|
  {
    if d != [] {
      RunInsideRun(d[1..]);
    }
  }

  /** A non-empty run of disallowed characters becomes exactly one `_`. */
  lemma ReplaceRunsOfRun(d: string)
    requires d != [] && NoNameChars(d)
    ensures ReplaceRuns(d) == "_"
  {
    RunInsideRun(d[1..]);
  }

  /** `sanitize` is the identity on names of at most 60 allowed characters. */
  lemma SanitizeIdentity(s: string)
    requires AllNameChars(s) && |s| <= MaxNameLength
    ensures Sanitize(s) == s
  {
    ReplaceRunsKeepsNameChars(s);
  }

  /** `sanitize` is idempotent. */
  lemma SanitizeIdempotent(s: string)
    ensures Sanitize(Sanitize(s)) == Sanitize(s)
  {
    SanitizeIdentity(Sanitize(s));
  }

  // ---------------------------------------------------------------------------
  // The body: [`Title: ${title}`, `Exported: ${…}`, '', '--- Prompt ---',
  // prompt, '', '--- Output ---', output].join('\n'), after a U+FEFF BOM.
  // ---------------------------------------------------------------------------

  const Bom: char := '\U{FEFF}'
  const TitleLabel := "Title: "
  const ExportedLabel := "Exported: "
  const PromptHeading := "--- Prompt ---"
  const OutputHeading := "--- Output ---"

  function Lines(title: string, exported: string, prompt: string, output: string): seq<string> {
    [TitleLabel + title, ExportedLabel + exported, "", PromptHeading, prompt, "", OutputHeading, output]
  }

  function Text(title: string, exported: string, prompt: string, output: string): string {
    [Bom] + Join(Lines(title, exported, prompt, output), "\n")
  }

  /** What separates the prompt from the output in the body. */
  const OutputMarker := "\n\n" + OutputHeading + "\n"

  /** What separates the exported timestamp from the prompt. */
  const PromptMarker := "\n\n" + PromptHeading + "\n"

  /** The body laid out as one string: the eight lines in order, `\n` between them, after the BOM. */
  lemma TextLayout(title: string, exported: string, prompt: string, output: string)
    ensures Text(title, exported, prompt, output)
         == [Bom] + (TitleLabel + (title + ("\n" + (ExportedLabel + (exported + (PromptMarker
            + (prompt + (OutputMarker + output))))))))
  {
    var ls := Lines(title, exported, prompt, output);
    LinesFromExported(title, exported, prompt, output);
    JoinStep(ls, 0, "\n");
    assert ls[0..] == ls;
  }

  /** The joined lines from the prompt on. */
  lemma LinesFromPrompt(title: string, exported: string, prompt: string, output: string)
    ensures Join(Lines(title, exported, prompt, output)[4..], "\n") == prompt + (OutputMarker + output)
  {
    var ls := Lines(title, exported, prompt, output);
    assert ls[7..] == [output];
    assert ls[5] == "" && ls[6] == OutputHeading;
    JoinStep(ls, 6, "\n");
    JoinStep(ls, 5, "\n");
    JoinStep(ls, 4, "\n");
    OutputMarkerBefore(output);
  }

  lemma OutputMarkerBefore(output: string)
    ensures "\n" + ("" + ("\n" + (OutputHeading + ("\n" + output)))) == OutputMarker + output
  {
  }

  /** The joined lines from the empty line before the prompt heading on. */
  lemma LinesFromBlank(title: string, exported: string, prompt: string, output: string)
    ensures Join(Lines(title, exported, prompt, output)[2..], "\n")
         == "\n" + (PromptHeading + ("\n" + (prompt + (OutputMarker + output))))
  {
    var ls := Lines(title, exported, prompt, output);
    LinesFromPrompt(title, exported, prompt, output);
    JoinStep(ls, 3, "\n");
    JoinStep(ls, 2, "\n");
  }

  /** The joined lines from the exported line on. */
  lemma LinesFromExported(title: string, exported: string, prompt: string, output: string)
    ensures Join(Lines(title, exported, prompt, output)[1..], "\n")
         == ExportedLabel + (exported + (PromptMarker + (prompt + (OutputMarker + output))))
  {
    var ls := Lines(title, exported, prompt, output);
    var j4 := prompt + (OutputMarker + output);
    LinesFromBlank(title, exported, prompt, output);
    JoinStep(ls, 1, "\n");
    assert "\n" + ("\n" + (PromptHeading + ("\n" + j4))) == PromptMarker + j4;
  }

  /** One step of `join`: the line at `k`, the separator, then the rest joined. */
  lemma JoinStep(ls: seq<string>, k: nat, sep: string)
    requires k + 1 < |ls|
    ensures Join(ls[k..], sep) == ls[k] + (sep + Join(ls[k + 1..], sep))
  {
    assert ls[k..][1..] == ls[k + 1..];
  }

  /** The output is the final segment of the text, right after the output heading line. */
  lemma OutputIsFinal(title: string, exported: string, prompt: string, output: string)
    ensures var t := Text(title, exported, prompt, output);
      |t| >= |OutputMarker| + |output| && t[|t| - |output|..] == output
      && t[|t| - |output| - |OutputMarker|..|t| - |output|] == OutputMarker
  {
    TextLayout(title, exported, prompt, output);
  }

  /** The decoded form of an export: the four fields it was made from. */
  datatype Export = Export(title: string, exported: string, prompt: string, output: string)

  predicate NoNewline(s: string) {
    forall i :: 0 <= i < |s| ==> s[i] != '\n'
  }

  /** Reads an export back: BOM, title line, exported line, prompt section, output section. */
  function Decode(text: string): Option<Export> {
    if |text| == 0 || text[0] != Bom || !StartsWith(text[1..], TitleLabel) then None
    else
      match SplitFirst(text[1 + |TitleLabel|..], "\n")
      case None => None
      case Some((title, rest)) =>
        if !StartsWith(rest, ExportedLabel) then None
        else
          match SplitFirst(rest[|ExportedLabel|..], PromptMarker)
          case None => None
          case Some((exported, body)) =>
            match SplitFirst(body, OutputMarker)
            case None => None
            case Some((prompt, output)) => Some(Export(title, exported, prompt, output))
  }

  lemma NoNewlineNotFound(p: string, rest: string, pat: string)
    requires NoNewline(p) && pat != [] && pat[0] == '\n'
    ensures NotFoundBefore(p + rest, pat, |p|)
  {
    forall i | 0 <= i < |p| && i <= |p + rest|
      ensures !StartsWith((p + rest)[i..], pat)
    {
      assert (p + rest)[i..][0] == p[i];
    }
  }

  /** Only its first two characters and its last are line breaks. */
  lemma OutputMarkerNewlines(j: int)
    requires 0 <= j < |OutputMarker|
    ensures OutputMarker[j] == '\n' <==> j == 0 || j == 1 || j == |OutputMarker| - 1
  {
    assert OutputMarker == ['\n', '\n', '-', '-', '-', ' ', 'O', 'u', 't', 'p', 'u', 't', ' ', '-', '-', '-', '\n'];
  }

  /**
   * If the output marker does not occur in `prompt + "\n"`, its first
   * occurrence in the text is the one the export wrote. (The marker's only
   * proper prefix that is also a suffix of it is the single line break.)
   */
  lemma MarkerFirstAfterPrompt(prompt: string, output: string)
    requires !HasInfix(prompt + "\n", OutputMarker)
    ensures NotFoundBefore(prompt + OutputMarker + output, OutputMarker, |prompt|)
  {
    var s := prompt + OutputMarker + output;
    var m := |OutputMarker|;
    forall i | 0 <= i < |prompt| && i <= |s|
      ensures !StartsWith(s[i..], OutputMarker)
    {
      if i + m <= |prompt| + 1 {
        assert !StartsWith((prompt + "\n")[i..], OutputMarker);
        assert (prompt + "\n")[i..][..m] == s[i..][..m];
      } else {
        var j := |prompt| - i;
        assert 1 <= j < m - 1;
        assert s[i..][j] == '\n' && s[i..][j + 1] == '\n';
        OutputMarkerNewlines(j);
        OutputMarkerNewlines(j + 1);
      }
    }
  }

  /**
   * Decoding an export gives back its title, timestamp, prompt and output
   * verbatim, when the title and timestamp are single lines and the prompt
   * does not contain the output marker.
   */
  lemma DecodeText(title: string, exported: string, prompt: string, output: string)
    requires NoNewline(title) && NoNewline(exported)
    requires !HasInfix(prompt + "\n", OutputMarker)
    ensures Decode(Text(title, exported, prompt, output)) == Some(Export(title, exported, prompt, output))
  {
    var body := prompt + OutputMarker + output;
    var afterExported := exported + PromptMarker + body;
    var afterLabel := ExportedLabel + afterExported;
    var afterTitle := title + "\n" + afterLabel;
    TextAfterTitleLabel(title, exported, prompt, output);
    NoNewlineNotFound(title, "\n" + afterLabel, "\n");
    SplitFirstAt(title, "\n", afterLabel);
    assert StartsWith(afterLabel, ExportedLabel) && afterLabel[|ExportedLabel|..] == afterExported;
    NoNewlineNotFound(exported, PromptMarker + body, PromptMarker);
    SplitFirstAt(exported, PromptMarker, body);
    MarkerFirstAfterPrompt(prompt, output);
    SplitFirstAt(prompt, OutputMarker, output);
  }

  lemma SplitHead(c: char, lbl: string, rest: string)
    ensures var t := [c] + (lbl + rest);
      |t| >= 1 + |lbl| && t[0] == c && StartsWith(t[1..], lbl) && t[1 + |lbl|..] == rest
  {
    var t := [c] + (lbl + rest);
    assert t[1..] == lbl + rest;
  }

  lemma TextAfterTitleLabel(title: string, exported: string, prompt: string, output: string)
    ensures var text := Text(title, exported, prompt, output);
      && |text| >= 1 + |TitleLabel| && text[0] == Bom && StartsWith(text[1..], TitleLabel)
      && text[1 + |TitleLabel|..]
         == title + "\n" + (ExportedLabel + (exported + PromptMarker + (prompt + OutputMarker + output)))
  {
    TextLayout(title, exported, prompt, output);
    var body := prompt + OutputMarker + output;
    assert prompt + (OutputMarker + output) == body;
    var afterExported := exported + PromptMarker + body;
    assert exported + (PromptMarker + body) == afterExported;
    var afterLabel := ExportedLabel + afterExported;
    var rest := title + "\n" + afterLabel;
    assert title + ("\n" + afterLabel) == rest;
    SplitHead(Bom, TitleLabel, rest);
  }

  /**
   * Without the condition on the prompt the body is ambiguous: two different
   * prompt/output pairs give the same text.
   */
  lemma AmbiguousWhenPromptHoldsMarker(title: string, exported: string, a: string, b: string, c: string)
    ensures Text(title, exported, a + OutputMarker + b, c) == Text(title, exported, a, b + OutputMarker + c)
  {
    TextLayout(title, exported, a + OutputMarker + b, c);
    TextLayout(title, exported, a, b + OutputMarker + c);
  }

  // ---------------------------------------------------------------------------
  // The filename and the Content-Disposition header
  // ---------------------------------------------------------------------------

  /** `iso.replace(/[:.]/g, '-')` */
  function FileTimestamp(iso: string): (r: string)
    ensures |r| == |iso|
    ensures forall i :: 0 <= i < |iso| ==> r[i] == if iso[i] == ':' || iso[i] == '.' then '-' else iso[i]
  {
    seq(|iso|, i requires 0 <= i < |iso| => if iso[i] == ':' || iso[i] == '.' then '-' else iso[i])
  }

  const Extension := ".txt"

  /** `${sanitize(title)}_${ts}.txt` */
  function Filename(title: string, iso: string): string {
    Sanitize(title) + "_" + FileTimestamp(iso) + Extension
  }

  /**
   * The characters `toISOString` produces for years 0 to 9999: digits,
   * `-`, `:`, `.`, `T`, `Z`. Later years also bring a leading `+`, which
   * is not among them.
   */
  predicate IsIsoChar(c: char) {
    ('0' <= c <= '9') || c == '-' || c == ':' || c == '.' || c == 'T' || c == 'Z'
  }

  /**
   * For an ISO timestamp, the filename is a stem of name characters with the
   * sanitized title in front, followed by `.txt`; so its only `.` is the one
   * before the extension.
   */
  lemma FilenameShape(title: string, iso: string)
    requires forall i :: 0 <= i < |iso| ==> IsIsoChar(iso[i])
    ensures var f := Filename(title, iso);
      && |f| >= |Extension| && f[|f| - |Extension|..] == Extension
      && AllNameChars(f[..|f| - |Extension|])
      && StartsWith(f, Sanitize(title) + "_")
      && forall i :: 0 <= i < |f| - |Extension| ==> f[i] != '.'
  {
    var stem := Sanitize(title) + "_" + FileTimestamp(iso);
    var f := Filename(title, iso);
    assert f == stem + Extension;
    assert f[..|f| - |Extension|] == stem;
    forall i | 0 <= i < |stem| ensures IsNameChar(stem[i]) {
      if i > |Sanitize(title)| {
        var k := i - |Sanitize(title)| - 1;
        assert stem[i] == FileTimestamp(iso)[k];
      }
    }
  }

  const DispositionPrefix := "attachment; filename=\""

  /** `attachment; filename="${filename}"` */
  function ContentDisposition(filename: string): string {
    DispositionPrefix + filename + "\""
  }

  /** Reads the filename back out of a quoted `filename` parameter. */
  function DispositionFilename(header: string): Option<string> {
    if |header| < |DispositionPrefix| + 1 || !StartsWith(header, DispositionPrefix) || header[|header| - 1] != '"'
    then None
    else
      var f := header[|DispositionPrefix|..|header| - 1];
      if exists i :: 0 <= i < |f| && (f[i] == '"' || f[i] == '\\') then None else Some(f)
  }

  /**
   * The header value is a well-formed quoted string: no `"` or `\` inside,
   * and the filename reads back unchanged.
   */
  lemma DispositionWellFormed(title: string, iso: string)
    requires forall i :: 0 <= i < |iso| ==> iso[i] != '"' && iso[i] != '\\'
    ensures DispositionFilename(ContentDisposition(Filename(title, iso))) == Some(Filename(title, iso))
  {
    var f := Filename(title, iso);
    var h := ContentDisposition(f);
    var s := Sanitize(title);
    var ts := FileTimestamp(iso);
    assert h[|DispositionPrefix|..|h| - 1] == f;
    assert StartsWith(h, DispositionPrefix);
    forall i | 0 <= i < |f| ensures f[i] != '"' && f[i] != '\\' {
      if i < |s| {
        assert f[i] == s[i];
      } else if i == |s| {
      } else if i < |s| + 1 + |ts| {
        assert f[i] == ts[i - |s| - 1];
      } else {
        assert f[i] == Extension[i - |s| - 1 - |ts|];
      }
    }
  }

  // ---------------------------------------------------------------------------
  // The route
  // ---------------------------------------------------------------------------

  /** The parsed JSON body; an absent field is `undefined`. */
  datatype ExportBody = ExportBody(title: Option<string>, prompt: Option<string>, output: Option<string>)

  datatype TextResponse = TextResponse(status: int, contentType: string, disposition: string, text: string)

  const DefaultTitle := "content"

  /** `POST /api/export/txt`; `exported` and `iso` are the clock's locale and ISO strings. */
  function Post(body: ExportBody, exported: string, iso: string): (r: TextResponse)
    ensures r.status == 200 && r.contentType == "text/plain; charset=utf-8"
    ensures |r.text| > 0 && r.text[0] == Bom
  {
    var title := body.title.GetOr(DefaultTitle);
    var prompt := body.prompt.GetOr("");
    var output := body.output.GetOr("");
    TextResponse(200, "text/plain; charset=utf-8",
                 ContentDisposition(Filename(title, iso)),
                 Text(title, exported, prompt, output))
  }

  /**
   * The route's promise end to end: missing fields default to `content`, ``
   * and ``; the text decodes back to the fields; the header carries the
   * filename built from the sanitized title.
   */
  lemma PostRoundTrip(body: ExportBody, exported: string, iso: string)
    requires NoNewline(body.title.GetOr(DefaultTitle)) && NoNewline(exported)
    requires !HasInfix(body.prompt.GetOr("") + "\n", OutputMarker)
    requires forall i :: 0 <= i < |iso| ==> IsIsoChar(iso[i])
    ensures var r := Post(body, exported, iso);
      && Decode(r.text) == Some(Export(body.title.GetOr(DefaultTitle), exported, body.prompt.GetOr(""), body.output.GetOr("")))
      && DispositionFilename(r.disposition) == Some(Filename(body.title.GetOr(DefaultTitle), iso))
  {
    var title := body.title.GetOr(DefaultTitle);
    DecodeText(title, exported, body.prompt.GetOr(""), body.output.GetOr(""));
    DispositionWellFormed(title, iso);
  }
}
