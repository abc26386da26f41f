/** Content and metadata derivation for one archived message: the text of
    get_message (plain-text parts in walk order, else the first HTML part),
    the line clean-up of clean_html, clean_addr, and the fields that
    extract_metadata derives from the headers and the text. */
module MboxUtil {
  import opened Common
  import opened PyStrings

  /** A MIME entity. contentType is what get_content_type() returns (already
      lower-cased, "text/plain" when undeclared); payload is what
      get_payload(decode=True) returns; charset is get_content_charset(). */
  datatype Part =
    | Leaf(contentType: string, payload: Option<Bytes>, charset: Option<string>)
    | Multipart(contentType: string, parts: seq<Part>)

  /** One archived message: its header fields in file order and its body. */
  datatype RawMessage = RawMessage(headers: seq<(string, string)>, body: Part)

  /** The collaborators this module calls but does not implement. */
  datatype Env = Env(
    // bytes.decode(charset, errors='replace'); None when the codec is unknown
    decode: (Bytes, string) -> Option<string>,
    // BeautifulSoup(html, "html.parser") without script/style, get_text(separator="\n")
    htmlText: string -> string,
    // dateutil.parser.parse(text).isoformat(); None when parsing raises
    parseDate: string -> Option<string>,
    // hashlib.md5(text.encode()).hexdigest()
    md5Hex: string -> string,
    // create_vector_embedding(data): the model's vector; None when the model raises
    embed: string -> Option<Vector>)

  // ---------------------------------------------------------------------
  // walk(): the entity itself, then each sub-entity's walk, in order
  // ---------------------------------------------------------------------

  function Walk(p: Part): (r: seq<Part>)
    ensures r != [] && r[0] == p
    decreases p, 1
  {
    match p
    case Leaf(_, _, _) => [p]
    case Multipart(_, ps) => [p] + WalkAll(ps)
  }

  function WalkAll(ps: seq<Part>): seq<Part>
    decreases ps, 0
  {
    if ps == [] then [] else Walk(ps[0]) + WalkAll(ps[1..])
  }

  /** get_payload(decode=True): None for a multipart entity. */
  function PayloadOf(p: Part): Option<Bytes> {
    if p.Leaf? then p.payload else None
  }

  /** get_content_charset() or 'utf-8' */
  function CharsetName(p: Part): string {
    if p.Leaf? && p.charset.Some? && p.charset.value != "" then p.charset.value else "utf-8"
  }

  // ---------------------------------------------------------------------
  // get_message
  // ---------------------------------------------------------------------

  /** What one entity of the walk adds in the text/plain pass: its decoded text
      and a newline; nothing when the decode raises (no payload, unknown codec). */
  function PlainContribution(p: Part, env: Env): string {
    if p.contentType == "text/plain" && PayloadOf(p).Some? then
      match env.decode(PayloadOf(p).value, CharsetName(p))
      case Some(t) => t + "\n"
      case None => ""
    else ""
  }

  function PlainText(ps: seq<Part>, env: Env): string {
    if ps == [] then "" else PlainContribution(ps[0], env) + PlainText(ps[1..], env)
  }

  lemma {:induction false} PlainTextAppend(a: seq<Part>, b: seq<Part>, env: Env)
    ensures PlainText(a + b, env) == PlainText(a, env) + PlainText(b, env)
  {
    if a == [] {
      assert a + b == b;
    } else {
      var c, x := PlainContribution(a[0], env), PlainText(a[1..], env);
      calc {
        PlainText(a + b, env);
        == { assert (a + b)[0] == a[0] && (a + b)[1..] == a[1..] + b; }
        c + PlainText(a[1..] + b, env);
        == { PlainTextAppend(a[1..], b, env); }
        c + (x + PlainText(b, env));
        (c + x) + PlainText(b, env);
      }
    }
  }

  lemma PlainTextSnoc(ps: seq<Part>, i: int, env: Env)
    requires 0 <= i < |ps|
    ensures PlainText(ps[..i + 1], env) == PlainText(ps[..i], env) + PlainContribution(ps[i], env)
  {
    assert ps[..i + 1] == ps[..i] + [ps[i]];
    PlainTextAppend(ps[..i], [ps[i]], env);
    assert PlainText([ps[i]], env) == PlainContribution(ps[i], env) + PlainText([], env);
  }

  /** A candidate of the HTML fallback pass: text/html with a non-empty payload. */
  predicate IsHtmlCandidate(p: Part) {
    p.contentType == "text/html" && PayloadOf(p).Some? && PayloadOf(p).value != []
  }

  /** Position of the first HTML candidate. */
  function FirstHtml(ps: seq<Part>): (r: Option<nat>)
    ensures r.Some? ==> r.value < |ps| && IsHtmlCandidate(ps[r.value])
    ensures r.Some? ==> forall j :: 0 <= j < r.value ==> !IsHtmlCandidate(ps[j])
    ensures r.None? ==> forall j :: 0 <= j < |ps| ==> !IsHtmlCandidate(ps[j])
  {
    if ps == [] then None
    else if IsHtmlCandidate(ps[0]) then Some(0)
    else match FirstHtml(ps[1..])
      case None => None
      case Some(k) => Some(k + 1)
  }

  /** The text of an HTML entity: decoded (raising on an unknown codec), then
      cleaned by clean_html. */
  function HtmlText(p: Part, env: Env): Result<string>
    requires PayloadOf(p).Some?
  {
    match env.decode(PayloadOf(p).value, CharsetName(p))
    case None => Err(UnknownCodec)
    case Some(s) => Ok(CleanHtml(env.htmlText(s)))
  }

  function HtmlFallback(ps: seq<Part>, env: Env): Result<string> {
    match FirstHtml(ps)
    case None => Ok("")
    case Some(k) => HtmlText(ps[k], env)
  }

  /** A non-multipart message: its payload decoded verbatim, "" when empty or absent. */
  function SinglePartText(p: Part, env: Env): Result<string> {
    match PayloadOf(p)
    case None => Ok("")
    case Some(b) =>
      if b == [] then Ok("")
      else match env.decode(b, CharsetName(p))
        case None => Err(UnknownCodec)
        case Some(s) => Ok(s)
  }

  /** The result of get_message for a message with this body. */
  function MessageText(body: Part, env: Env): Result<string>
  {
    if body.Multipart? then
      var plain := PlainText(Walk(body), env);
      if plain != "" then Ok(plain) else HtmlFallback(Walk(body), env)
    else SinglePartText(body, env)
  }

  /** ps[k] is the first HTML candidate of ps. */
  predicate FirstCandidate(ps: seq<Part>, k: int) {
    0 <= k < |ps| && IsHtmlCandidate(ps[k]) && forall j :: 0 <= j < k ==> !IsHtmlCandidate(ps[j])
  }

  lemma FirstHtmlFinds(ps: seq<Part>, k: int)
    requires FirstCandidate(ps, k)
    ensures FirstHtml(ps) == Some(k)
  {
    var f := FirstHtml(ps);
    assert f.Some?;
    assert !(f.value < k) && !(k < f.value);
  }

  /** What get_message returns for a multipart message. */
  lemma MultipartText(body: Part, env: Env)
    requires body.Multipart?
    // the text/plain parts in walk order, each followed by a newline
    ensures PlainText(Walk(body), env) != "" ==> MessageText(body, env) == Ok(PlainText(Walk(body), env))
    // otherwise the first HTML candidate in walk order, cleaned; later ones play no part
    ensures PlainText(Walk(body), env) == "" ==>
      forall k :: FirstCandidate(Walk(body), k) ==> MessageText(body, env) == HtmlText(Walk(body)[k], env)
    // and nothing when there is no such part
    ensures (PlainText(Walk(body), env) == ""
             && forall k :: 0 <= k < |Walk(body)| ==> !IsHtmlCandidate(Walk(body)[k]))
            ==> MessageText(body, env) == Ok("")
  {
    var w := Walk(body);
    if PlainText(w, env) == "" {
      assert MessageText(body, env) == HtmlFallback(w, env);
      forall k | FirstCandidate(w, k)
        ensures MessageText(body, env) == HtmlText(w[k], env)
      {
        FirstHtmlFinds(w, k);
      }
    }
  }

  /** What get_message returns for a non-multipart message: the payload,
      decoded but not cleaned. */
  lemma SinglePartCases(body: Part, env: Env)
    requires body.Leaf?
    ensures body.payload.None? || body.payload == Some([]) ==> MessageText(body, env) == Ok("")
    ensures body.payload.Some? && body.payload.value != [] ==>
      MessageText(body, env) == (match env.decode(body.payload.value, CharsetName(body))
            case None => Err(UnknownCodec)
            case Some(s) => Ok(s))
  {
  }

  /** get_message: the two passes over walk() of the source, proved to compute MessageText. */
  method GetMessage(msg: RawMessage, env: Env) returns (r: Result<string>)
    ensures r == MessageText(msg.body, env)
  {
    var message := "";
    var body := msg.body;
    if body.Multipart? {
      var parts := Walk(body);
      message := PlainPass(parts, env);
      if message == "" {
        r := HtmlPass(parts, env);
        return;
      }
    } else {
      var payload := PayloadOf(body);
      if payload.Some? && payload.value != [] {
        var text := env.decode(payload.value, CharsetName(body));
        if text.None? {
          return Err(UnknownCodec);
        }
        message := text.value;
      }
    }
    r := Ok(message);
  }

  /** The first loop of get_message: every text/plain entity whose payload
      decodes contributes its text and a newline. */
  method PlainPass(parts: seq<Part>, env: Env) returns (message: string)
    ensures message == PlainText(parts, env)
  {
    message := "";
    var i := 0;
    while i < |parts|
      invariant 0 <= i <= |parts|
      invariant message == PlainText(parts[..i], env)
    {
      var part := parts[i];
      if part.contentType == "text/plain" {
        var payload := PayloadOf(part);
        if payload.Some? {
          var text := env.decode(payload.value, CharsetName(part));
          if text.Some? {
            message := message + (text.value + "\n");
          }
        }
      }
      PlainTextSnoc(parts, i, env);
      i := i + 1;
    }
    assert parts[..i] == parts;
  }

  /** The second loop of get_message, run when the first found no text: the
      first text/html entity with a non-empty payload, decoded and cleaned;
      "" when there is none. */
  method HtmlPass(parts: seq<Part>, env: Env) returns (r: Result<string>)
    ensures r == HtmlFallback(parts, env)
  {
    var j := 0;
    while j < |parts|
      invariant 0 <= j <= |parts|
      invariant forall k :: 0 <= k < j ==> !IsHtmlCandidate(parts[k])
    {
      var part := parts[j];
      if part.contentType == "text/html" {
        var htmlPayload := PayloadOf(part);
        if htmlPayload.Some? && htmlPayload.value != [] {
          FirstHtmlFinds(parts, j);
          var htmlStr := env.decode(htmlPayload.value, CharsetName(part));
          if htmlStr.None? {
            return Err(UnknownCodec);
          }
          var message := CleanHtml(env.htmlText(htmlStr.value));
          return Ok(message);
        }
      }
      j := j + 1;
    }
    r := Ok("");
  }

  /** walk() is a pre-order traversal: the text/plain pass over the walk equals
      a direct recursion that visits an entity before its sub-entities. */
  function TreePlainText(p: Part, env: Env): string
    decreases p, 1
  {
    PlainContribution(p, env) + (if p.Multipart? then TreePlainTextAll(p.parts, env) else "")
  }

  function TreePlainTextAll(ps: seq<Part>, env: Env): string
    decreases ps, 0
  {
    if ps == [] then "" else TreePlainText(ps[0], env) + TreePlainTextAll(ps[1..], env)
  }

  lemma {:induction false} WalkInPreorder(p: Part, env: Env)
    ensures PlainText(Walk(p), env) == TreePlainText(p, env)
    decreases p, 1
  {
    PlainTextAppend([p], Walk(p)[1..], env);
    assert Walk(p) == [p] + Walk(p)[1..];
    assert PlainText([p], env) == PlainContribution(p, env) + PlainText([], env);
    if p.Multipart? {
      assert Walk(p)[1..] == WalkAll(p.parts);
      WalkAllInPreorder(p.parts, env);
    }
  }

  lemma {:induction false} WalkAllInPreorder(ps: seq<Part>, env: Env)
    ensures PlainText(WalkAll(ps), env) == TreePlainTextAll(ps, env)
    decreases ps, 0
  {
    if ps != [] {
      PlainTextAppend(Walk(ps[0]), WalkAll(ps[1..]), env);
      WalkInPreorder(ps[0], env);
      WalkAllInPreorder(ps[1..], env);
    }
  }

  /** Parts after the first HTML candidate never matter to the fallback. */
  lemma {:induction false} HtmlFallbackIgnoresLaterParts(a: seq<Part>, b: seq<Part>, env: Env)
    requires FirstHtml(a).Some?
    ensures FirstHtml(a + b) == FirstHtml(a)
    ensures HtmlFallback(a + b, env) == HtmlFallback(a, env)
  {
    var k := FirstHtml(a).value;
    assert (a + b)[k] == a[k];
    assert forall j :: 0 <= j < k ==> (a + b)[j] == a[j];
    assert forall j :: 0 <= j < k ==> !IsHtmlCandidate((a + b)[j]);
  }

  // ---------------------------------------------------------------------
  // clean_html: the line clean-up after BeautifulSoup
  // ---------------------------------------------------------------------

  /** line.strip() for every line, keeping the non-empty results. */
  function CleanLines(lines: seq<string>): seq<string>
    decreases |lines|
  {
    if |lines| == 0 then []
    else
      var t := Strip(lines[0]);
      var rest := CleanLines(lines[1..]);
      if |t| == 0 then rest else [t] + rest
  }

  /** x is the strip of one of the lines. */
  ghost predicate StripOfSome(lines: seq<string>, x: string) {
    exists k :: 0 <= k < |lines| && x == Strip(lines[k])
  }

  lemma StripOfSomeCons(lines: seq<string>, x: string)
    requires |lines| != 0
    ensures StripOfSome(lines, x) <==> x == Strip(lines[0]) || StripOfSome(lines[1..], x)
  {
    if StripOfSome(lines, x) && x != Strip(lines[0]) {
      var k :| 0 <= k < |lines| && x == Strip(lines[k]);
      assert lines[k] == lines[1..][k - 1];
    }
    if StripOfSome(lines[1..], x) {
      var k :| 0 <= k < |lines[1..]| && x == Strip(lines[1..][k]);
      assert lines[1..][k] == lines[k + 1];
    }
  }

  /** A line is kept exactly when it is the non-empty strip of some line. */
  lemma {:induction false} CleanLinesMembers(lines: seq<string>, x: string)
    ensures x in CleanLines(lines) <==> x != "" && StripOfSome(lines, x)
    decreases |lines|
  {
    if |lines| != 0 {
      CleanLinesMembers(lines[1..], x);
      StripOfSomeCons(lines, x);
    }
  }

  function CleanHtml(text: string): string {
    Join(CleanLines(SplitLines(text)), "\n")
  }

  /** A line as clean_html emits it: non-empty, unbroken, and with no
      whitespace at either end (so equal to its own strip). */
  predicate CleanLine(x: string) {
    |x| > 0 && Trimmed(x) && '\n' !in x
  }

  lemma {:induction false} CleanLinesShape(lines: seq<string>)
    requires forall k :: 0 <= k < |lines| ==> Unbroken(lines[k])
    ensures forall k :: 0 <= k < |CleanLines(lines)| ==> CleanLine(CleanLines(lines)[k])
    decreases |lines|
  {
    if |lines| != 0 {
      UnbrokenTail(lines);
      CleanLinesShape(lines[1..]);
      var t := Strip(lines[0]);
      if |t| != 0 {
        CleanFirst(lines[0]);
        CleanCons(t, CleanLines(lines[1..]));
      }
    }
  }

  lemma UnbrokenTail(lines: seq<string>)
    requires |lines| != 0 && forall k :: 0 <= k < |lines| ==> Unbroken(lines[k])
    ensures Unbroken(lines[0]) && forall k :: 0 <= k < |lines[1..]| ==> Unbroken(lines[1..][k])
  {
    assert forall k :: 0 <= k < |lines[1..]| ==> lines[1..][k] == lines[k + 1];
  }

  /** The strip of an unbroken line, when not empty, is a clean line. */
  lemma CleanFirst(x: string)
    requires Unbroken(x) && |Strip(x)| != 0
    ensures CleanLine(Strip(x))
  {
    assert IsLineBreak('\n');
    assert '\n' !in x;
    StripKeepsOut(x, '\n');
  }

  lemma CleanCons(t: string, rest: seq<string>)
    requires CleanLine(t) && forall k :: 0 <= k < |rest| ==> CleanLine(rest[k])
    ensures forall k :: 0 <= k < |[t] + rest| ==> CleanLine(([t] + rest)[k])
  {
    forall k | 0 <= k < |[t] + rest|
      ensures CleanLine(([t] + rest)[k])
    {
      if k > 0 {
        assert ([t] + rest)[k] == rest[k - 1];
      }
    }
  }

  lemma {:induction false} CleanLinesKeepText(lines: seq<string>)
    ensures RemoveSpaces(Concat(CleanLines(lines))) == RemoveSpaces(Concat(lines))
  {
    if lines != [] {
      var t := Strip(lines[0]);
      var rest := CleanLines(lines[1..]);
      CleanLinesKeepText(lines[1..]);
      StripKeepsText(lines[0]);
      ConcatCons(lines[0], lines[1..]);
      assert lines == [lines[0]] + lines[1..];
      RemoveSpacesAppend(lines[0], Concat(lines[1..]));
      if |t| == 0 {
        assert CleanLines(lines) == rest;
      } else {
        assert CleanLines(lines) == [t] + rest;
        ConcatCons(t, rest);
        RemoveSpacesAppend(t, Concat(rest));
      }
    }
  }

  lemma {:induction false} JoinNewlinesKeepText(ls: seq<string>)
    ensures RemoveSpaces(Join(ls, "\n")) == RemoveSpaces(Concat(ls))
  {
    if |ls| == 1 {
      ConcatCons(ls[0], []);
      assert ls[0] + "" == ls[0];
    } else if |ls| > 1 {
      JoinNewlinesKeepText(ls[1..]);
      var j := Join(ls[1..], "\n");
      assert Join(ls, "\n") == ls[0] + ("\n" + j);
      RemoveSpacesAppend(ls[0], "\n" + j);
      RemoveSpacesAppend("\n", j);
      assert RemoveSpaces("\n") == "" by {
        assert IsSpace('\n');
        assert "\n"[1..] == "";
      }
      ConcatCons(ls[0], ls[1..]);
      assert ls == [ls[0]] + ls[1..];
      RemoveSpacesAppend(ls[0], Concat(ls[1..]));
    }
  }

  /** clean_html yields lines that are non-empty and equal to their own strip,
      and it keeps all non-whitespace text of the extracted HTML text, in order. */
  lemma CleanHtmlShape(text: string)
    ensures CleanHtml(text) != "" ==> forall k :: 0 <= k < |SplitOn(CleanHtml(text), '\n')| ==>
      CleanLine(SplitOn(CleanHtml(text), '\n')[k])
    ensures RemoveSpaces(CleanHtml(text)) == RemoveSpaces(text)
    // its lines are the cleaned lines of the text
    ensures CleanHtml(text) != "" ==> SplitOn(CleanHtml(text), '\n') == CleanLines(SplitLines(text))
  {
    var lines := SplitLines(text);
    var cl := CleanLines(lines);
    CleanLinesShape(lines);
    if cl != [] {
      SplitOnJoin(cl, '\n');
    }
    JoinNewlinesKeepText(cl);
    CleanLinesKeepText(lines);
    SplitLinesKeepText(text);
  }

  // ---------------------------------------------------------------------
  // clean_addr and header lookup
  // ---------------------------------------------------------------------

  /** hs[k] is the first field whose name matches, ignoring ASCII case. */
  predicate FirstField(hs: seq<(string, string)>, name: string, k: int) {
    0 <= k < |hs| && Lower(hs[k].0) == Lower(name)
    && forall j :: 0 <= j < k ==> Lower(hs[j].0) != Lower(name)
  }

  /** message.get(name): the first field whose name matches ignoring case,
      and None when none does. */
  function Header(hs: seq<(string, string)>, name: string): (r: Option<string>)
    ensures r.None? <==> forall k :: 0 <= k < |hs| ==> Lower(hs[k].0) != Lower(name)
    ensures r.Some? ==> exists k :: FirstField(hs, name, k) && r.value == hs[k].1
  {
    if hs == [] then None
    else if Lower(hs[0].0) == Lower(name) then Some(hs[0].1)
    else Header(hs[1..], name)
  }

  function StripAll(ps: seq<string>): (r: seq<string>)
    ensures |r| == |ps|
    ensures forall k :: 0 <= k < |ps| ==> r[k] == Strip(ps[k])
  {
    if ps == [] then [] else [Strip(ps[0])] + StripAll(ps[1..])
  }

  /** clean_addr: [] for an absent or empty field, otherwise the comma-separated
      pieces, each stripped. */
  function CleanAddr(addr: Option<string>): (r: seq<string>)
    ensures addr.None? || addr == Some("") ==> r == []
    ensures addr.Some? && addr.value != "" ==>
      |r| == CountChar(addr.value, ',') + 1
      && forall k :: 0 <= k < |r| ==> Trimmed(r[k]) && ',' !in r[k]
    // each address is its comma piece with only the whitespace at its ends cut off
    ensures addr.Some? && addr.value != "" ==>
      |r| == |SplitOn(addr.value, ',')|
      && forall k :: 0 <= k < |r| ==> MiddleOf(SplitOn(addr.value, ',')[k], r[k])
  {
    if addr.None? || addr.value == "" then []
    else
      var pieces := SplitOn(addr.value, ',');
      assert forall k :: 0 <= k < |pieces| ==> ',' !in Strip(pieces[k]) by {
        forall k | 0 <= k < |pieces|
          ensures ',' !in Strip(pieces[k])
        {
          StripKeepsOut(pieces[k], ',');
        }
      }
      StripAll(pieces)
  }

  /** The addresses clean_addr returns carry all non-whitespace text of the field. */
  lemma CleanAddrKeepsText(addr: string)
    requires addr != ""
    ensures RemoveSpaces(Join(CleanAddr(Some(addr)), ",")) == RemoveSpaces(addr)
  {
    StripAllKeepsText(SplitOn(addr, ','), ",");
  }

  lemma {:induction false} StripAllKeepsText(ps: seq<string>, sep: string)
    ensures RemoveSpaces(Join(StripAll(ps), sep)) == RemoveSpaces(Join(ps, sep))
  {
    if |ps| == 1 {
      StripKeepsText(ps[0]);
    } else if |ps| > 1 {
      StripAllKeepsText(ps[1..], sep);
      var q := StripAll(ps);
      assert q[0] == Strip(ps[0]) && q[1..] == StripAll(ps[1..]);
      RemoveSpacesOfJoin(q, sep);
      RemoveSpacesOfJoin(ps, sep);
      StripKeepsText(ps[0]);
    }
  }

  /** RemoveSpaces of a join of two or more pieces, split at the first. */
  lemma RemoveSpacesOfJoin(q: seq<string>, sep: string)
    requires |q| > 1
    ensures RemoveSpaces(Join(q, sep))
            == RemoveSpaces(q[0]) + (RemoveSpaces(sep) + RemoveSpaces(Join(q[1..], sep)))
  {
    var jq := Join(q[1..], sep);
    assert Join(q, sep) == q[0] + (sep + jq);
    RemoveSpacesAppend(q[0], sep + jq);
    RemoveSpacesAppend(sep, jq);
  }

  // ---------------------------------------------------------------------
  // thread id, reply flag and the other derived fields
  // ---------------------------------------------------------------------

  /** Length of a leading reply/forward marker as matched by ^(re|fw|fwd):
      ignoring case; 0 when there is none. */
  function MarkerLength(t: string): (n: nat)
    ensures n <= |t|
    // what is found is a marker, and one is found exactly when is_reply holds
    ensures n > 0 ==> IsMarker(t[..n])
    ensures n == 0 <==> !IsReply(t)
  {
    var l := Lower(t);
    var n := if StartsWith(l, "re:") then 3
      else if StartsWith(l, "fw:") then 3
      else if StartsWith(l, "fwd:") then 4
      else 0;
    assert Lower(t[..n]) == l[..n];
    n
  }

  /** The text hashed into thread_id: the stripped subject with at most one
      marker and the whitespace after it removed. */
  function ThreadKey(subject: string): (r: string)
    ensures Trimmed(r)
    // the key is what is left of the stripped subject after a front part:
    // all of it exactly when is_reply does not hold of the stripped subject
    ensures |r| <= |Strip(subject)| && r == Strip(subject)[|Strip(subject)| - |r|..]
    ensures r == Strip(subject) <==> !IsReply(Strip(subject))
    // what is cut off a marked subject is its marker and whitespace only
    ensures var t := Strip(subject); var n := MarkerLength(t);
      n > 0 ==> n <= |t| - |r| && AllSpace(t[n..|t| - |r|])
  {
    var t := Strip(subject);
    var n := MarkerLength(t);
    var r := if n == 0 then t else LStrip(t[n..]);
    KeyFacts(t, n, r);
    r
  }

  /** The facts ThreadKey states, about the stripped subject t. */
  lemma KeyFacts(t: string, n: nat, r: string)
    requires Trimmed(t) && n == MarkerLength(t)
    requires r == if n == 0 then t else LStrip(t[n..])
    ensures Trimmed(r) && |r| <= |t| && r == t[|t| - |r|..]
    ensures r == t <==> !IsReply(t)
    ensures n > 0 ==> n <= |t| - |r| && AllSpace(t[n..|t| - |r|])
  {
    if n > 0 {
      MarkedTail(t, n);
    } else {
      assert r == t && |t| - |r| == 0 && t[0..] == t;
    }
  }

  /** Cutting a non-empty front and the whitespace after it from a trimmed
      text leaves a strictly shorter, trimmed tail of it. */
  lemma MarkedTail(t: string, n: nat)
    requires Trimmed(t) && 0 < n <= |t|
    ensures var r := LStrip(t[n..]);
      Trimmed(r) && |r| < |t| && r == t[|t| - |r|..] && r != t
      && n <= |t| - |r| && AllSpace(t[n..|t| - |r|])
  {
    var k := LeadingSpaces(t[n..]);
    var m := n + k;
    TailAt(t, n, k, m);
    TrimmedTail(t, m);
    var r := t[m..];
    assert LStrip(t[n..]) == r && |t| - |r| == m;
  }

  /** lstrip() of the text after n starts at n plus its leading whitespace. */
  lemma TailAt(t: string, n: nat, k: nat, m: nat)
    requires n <= |t| && k == LeadingSpaces(t[n..]) && m == n + k
    ensures m <= |t| && LStrip(t[n..]) == t[m..] && AllSpace(t[n..m])
    ensures m == |t| || !IsSpace(t[m])
  {
    var u := t[n..];
    assert u[k..] == t[m..];
    assert t[n..m] == u[..k];
    LeadingAllSpace(u);
    assert m < |t| ==> t[m] == u[k];
  }

  /** A tail of a trimmed text that starts on a non-space is trimmed. */
  lemma TrimmedTail(t: string, m: nat)
    requires Trimmed(t) && m <= |t| && (m == |t| || !IsSpace(t[m]))
    ensures Trimmed(t[m..])
  {
    if m < |t| {
      assert t[m..][0] == t[m];
      assert t[m..][|t| - m - 1] == t[|t| - 1];
    }
  }

  /** thread_id strips the subject before it looks for a marker, so only
      the stripped subject matters. */
  lemma ThreadKeyOfStrip(s: string)
    ensures ThreadKey(s) == ThreadKey(Strip(s))
  {
    assert Strip(Strip(s)) == Strip(s);
  }

  lemma SameStripSameKey(a: string, b: string)
    requires Strip(a) == Strip(b)
    ensures ThreadKey(a) == ThreadKey(b)
  {
  }

  /** Whitespace at either end of a marked subject "p w x" does not change
      its thread key x. */
  lemma PaddedMarker(w0: string, p: string, w: string, x: string, w1: string)
    requires AllSpace(w0) && AllSpace(w1) && IsMarker(p) && AllSpace(w) && Trimmed(x)
    ensures ThreadKey(w0 + p + w + x + w1) == x
  {
    if x == [] {
      AllSpaceAppend(w, w1);
      assert w0 + p + w + x + w1 == w0 + p + (w + w1);
      PaddedBareMarker(w0, p, w + w1);
    } else {
      var y := p + w + x;
      assert w0 + p + w + x + w1 == w0 + y + w1;
      PaddedMarkedText(w0, p, w, x, w1);
    }
  }

  lemma PaddedBareMarker(w0: string, p: string, v: string)
    requires AllSpace(w0) && AllSpace(v) && IsMarker(p)
    ensures ThreadKey(w0 + p + v) == []
  {
    MarkerEnds(p);
    StripPadded(w0, p, v);
    BareMarkerKey(p);
    SameStripSameKey(w0 + p + v, p);
  }

  lemma BareMarkerKey(p: string)
    requires IsMarker(p)
    ensures Strip(p) == p && ThreadKey(p) == []
  {
    MarkerEnds(p);
    assert Strip(p) == p;
    MarkerLengthOfMarked(p, []);
    assert p + [] == p;
    assert p[|p|..] == [];
  }

  lemma PaddedMarkedText(w0: string, p: string, w: string, x: string, w1: string)
    requires AllSpace(w0) && AllSpace(w1) && IsMarker(p) && AllSpace(w) && Trimmed(x) && x != []
    ensures ThreadKey(w0 + (p + w + x) + w1) == x
  {
    var y := p + w + x;
    StripOfMarkedSubject(p, w, x);
    StripPadded(w0, y, w1);
    SameStripSameKey(w0 + y + w1, y);
    StripsOneMarker(p, w, x);
  }

  /** The subject "Re: x " keys as "x". */
  lemma TrailingBlankSubject()
    ensures ThreadKey("Re: x ") == "x"
  {
    assert Lower("Re:") == "re:";
    assert IsSpace(' ') && !IsSpace('x');
    assert "Re: x " == [] + "Re:" + " " + "x" + " ";
    PaddedMarker([], "Re:", " ", "x", " ");
  }

  function ThreadId(subject: string, env: Env): string {
    env.md5Hex(ThreadKey(subject))
  }

  /** is_reply: the lower-cased subject, not stripped, starts with a marker. */
  predicate IsReply(subject: string) {
    var l := Lower(subject);
    StartsWith(l, "re:") || StartsWith(l, "fw:") || StartsWith(l, "fwd:")
  }

  predicate IsMarker(p: string) {
    Lower(p) in {"re:", "fw:", "fwd:"}
  }

  lemma LowerAppend(a: string, b: string)
    ensures Lower(a + b) == Lower(a) + Lower(b)
  {
  }

  lemma {:induction false} LStripSpacesThenText(w: string, x: string)
    requires AllSpace(w) && (x == [] || !IsSpace(x[0]))
    ensures LStrip(w + x) == x
  {
    var s := w + x;
    var n := LeadingSpaces(s);
    assert forall i :: 0 <= i < |w| ==> s[i] == w[i];
    assert n >= |w|;
    assert x != [] ==> s[|w|] == x[0];
    assert n <= |w|;
  }

  lemma {:induction false} RStripTextThenSpaces(x: string, w: string)
    requires AllSpace(w) && (x == [] || !IsSpace(x[|x| - 1]))
    ensures RStrip(x + w) == x
  {
    var s := x + w;
    var m := TrailingSpaces(s);
    assert forall i :: 0 <= i < |w| ==> s[|x| + i] == w[i];
    assert m >= |w|;
    assert x != [] ==> s[|x| - 1] == x[|x| - 1];
    assert m <= |w|;
    assert s[..|s| - m] == x;
  }

  lemma AllSpaceAppend(a: string, b: string)
    requires AllSpace(a) && AllSpace(b)
    ensures AllSpace(a + b)
  {
    assert forall i :: 0 <= i < |a| + |b| ==> (a + b)[i] == if i < |a| then a[i] else b[i - |a|];
  }

  /** strip() of a trimmed text between two runs of whitespace is that text. */
  lemma StripPadded(w0: string, y: string, w1: string)
    requires AllSpace(w0) && AllSpace(w1) && Trimmed(y)
    ensures Strip(w0 + y + w1) == y
  {
    if y == [] {
      AllSpaceAppend(w0, w1);
      assert w0 + y + w1 == (w0 + w1) + [];
      LStripSpacesThenText(w0 + w1, []);
    } else {
      var t := y + w1;
      assert t[0] == y[0];
      assert w0 + y + w1 == w0 + t;
      LStripSpacesThenText(w0, t);
      RStripTextThenSpaces(y, w1);
    }
  }

  lemma MarkerEnds(p: string)
    requires IsMarker(p)
    ensures 3 <= |p| <= 4 && !IsSpace(p[0]) && !IsSpace(p[|p| - 1])
  {
    var l := Lower(p);
    assert |l| == |p|;
    assert l[0] == LowerChar(p[0]) && l[|p| - 1] == LowerChar(p[|p| - 1]);
    assert l[0] in "rf" && l[|p| - 1] == ':';
  }

  /** MarkerLength reads exactly the marker at the front. */
  lemma MarkerLengthOfPrefix(t: string, n: nat)
    requires n <= |t| && IsMarker(t[..n])
    ensures MarkerLength(t) == n
  {
    var l := Lower(t);
    var lp := Lower(t[..n]);
    assert l[..n] == lp;
    if lp == "re:" {
      assert StartsWith(l, "re:");
    } else if lp == "fw:" {
      assert lp[..2] != "re";
      assert !StartsWith(l, "re:");
      assert StartsWith(l, "fw:");
    } else {
      assert lp == "fwd:";
      assert l[..4] == "fwd:";
      assert l[0] != 'r' && l[2] != ':';
      assert !StartsWith(l, "re:") && !StartsWith(l, "fw:");
    }
  }

  lemma MarkerLengthOfMarked(p: string, rest: string)
    requires IsMarker(p)
    ensures MarkerLength(p + rest) == |p|
  {
    assert (p + rest)[..|p|] == p;
    MarkerLengthOfPrefix(p + rest, |p|);
  }

  lemma {:induction false} StripOfMarkedSubject(p: string, w: string, x: string)
    requires IsMarker(p) && AllSpace(w) && Trimmed(x)
    ensures Strip(p + w + x) == if x == [] then p else p + w + x
  {
    MarkerEnds(p);
    var s := p + w + x;
    assert s[0] == p[0];
    assert LStrip(s) == s;
    var m := TrailingSpaces(s);
    if x == [] {
      assert s == p + w;
      assert s[|p| - 1] == p[|p| - 1];
      assert m <= |w|;
      assert forall i :: |p| <= i < |s| ==> IsSpace(s[i]) by {
        assert forall i :: |p| <= i < |s| ==> s[i] == w[i - |p|];
      }
      assert m >= |w|;
      assert RStrip(s) == s[..|p|];
      assert s[..|p|] == p;
    } else {
      assert s[|s| - 1] == x[|x| - 1];
      assert m == 0;
      assert RStrip(s) == s;
    }
  }

  /** thread_id strips exactly one marker: a marked subject "p w x", with x
      already trimmed, has x itself as its thread key, whatever x starts with. */
  lemma StripsOneMarker(p: string, w: string, x: string)
    requires IsMarker(p) && AllSpace(w) && Trimmed(x)
    ensures ThreadKey(p + w + x) == x
  {
    StripOfMarkedSubject(p, w, x);
    var tail := if x == [] then [] else w + x;
    AppendAssoc(p, w, x);
    DropPrefix(p, tail);
    assert p + [] == p;
    MarkerLengthOfMarked(p, tail);
    if x != [] {
      LStripSpacesThenText(w, x);
    }
  }

  /** So a reply and its original share a thread: "Re: X" and "X" have the same
      key when X is trimmed and carries no marker of its own. */
  lemma ReplySharesThread(p: string, w: string, x: string, env: Env)
    requires IsMarker(p) && AllSpace(w) && Trimmed(x) && MarkerLength(x) == 0
    ensures ThreadId(p + w + x, env) == ThreadId(x, env)
  {
    StripsOneMarker(p, w, x);
  }

  /** The marker is not stripped repeatedly: "Re: Fwd: X" keys as "Fwd: X", not as "X". */
  lemma OnlyOneMarkerStripped()
    ensures ThreadKey("Re: Fwd: X") == "Fwd: X"
    ensures ThreadKey("X") == "X"
  {
    ReFwdParts();
    StripsOneMarker("Re:", " ", "Fwd: X");
    UnmarkedKey("X");
  }

  lemma ReFwdParts()
    ensures IsMarker("Re:") && AllSpace(" ") && Trimmed("Fwd: X")
    ensures "Re: Fwd: X" == "Re:" + " " + "Fwd: X"
  {
    assert Lower("Re:") == "re:";
    assert IsSpace(' ');
  }

  /** A trimmed subject without a marker is its own thread key. */
  lemma UnmarkedKey(x: string)
    requires Trimmed(x) && MarkerLength(x) == 0
    ensures ThreadKey(x) == x
  {
  }

  /** A subject that is_reply flags begins with a marker. */
  lemma ReplyPrefix(subject: string) returns (n: nat)
    requires IsReply(subject)
    ensures n <= |subject| && IsMarker(subject[..n])
  {
    var l := Lower(subject);
    n := if StartsWith(l, "re:") then 3 else if StartsWith(l, "fw:") then 3 else 4;
    assert Lower(subject[..n]) == l[..n];
  }

  /** Stripping a subject that begins with a marker keeps the marker in front. */
  lemma StripKeepsMarker(s: string, n: nat)
    requires n <= |s| && IsMarker(s[..n])
    ensures n <= |Strip(s)| && Strip(s)[..n] == s[..n]
  {
    var p := s[..n];
    MarkerEnds(p);
    assert s[0] == p[0];
    assert LStrip(s) == s;
    var m := TrailingSpaces(s);
    assert s[n - 1] == p[n - 1];
    assert m <= |s| - n;
    assert Strip(s) == s[..|s| - m];
  }

  /** A subject that is_reply flags keeps its marker after strip(). */
  lemma ReplyKeepsMarker(subject: string)
    requires IsReply(subject)
    ensures MarkerLength(Strip(subject)) > 0
  {
    var n := ReplyPrefix(subject);
    StripKeepsMarker(subject, n);
    var t := Strip(subject);
    assert t[..n] == subject[..n];
    MarkerLengthOfPrefix(t, n);
  }

  /** Whenever a marker is found, the thread key is shorter than the stripped subject. */
  lemma MarkedKeyShorter(subject: string)
    requires MarkerLength(Strip(subject)) > 0
    ensures |ThreadKey(subject)| < |Strip(subject)|
  {
    var t := Strip(subject);
    var n := MarkerLength(t);
    var u := t[n..];
    assert |u| < |t|;
    assert |LStrip(u)| <= |u|;
  }

  /** A subject that is_reply flags always has its marker removed from the thread key. */
  lemma ReplyMarkerIsStripped(subject: string)
    requires IsReply(subject)
    ensures MarkerLength(Strip(subject)) > 0
    ensures |ThreadKey(subject)| < |Strip(subject)|
  {
    ReplyKeepsMarker(subject);
    MarkedKeyShorter(subject);
  }

  /** is_reply looks at the unstripped subject: indentation hides a marker from it. */
  lemma IndentedIsNotReply(w0: string, s: string)
    requires w0 != [] && AllSpace(w0)
    ensures !IsReply(w0 + s)
  {
    var l := Lower(w0 + s);
    assert (w0 + s)[0] == w0[0];
    assert l[0] == w0[0];
    assert l[0] != 'r' && l[0] != 'f';
  }

  /** thread_id strips the subject first: indentation does not change the key. */
  lemma IndentationKeepsThreadKey(w0: string, s: string)
    requires AllSpace(w0) && s != [] && !IsSpace(s[0])
    ensures ThreadKey(w0 + s) == ThreadKey(s)
  {
    LStripSpacesThenText(w0, s);
    assert LStrip(s) == s;
  }

  /** So an indented marker is not a reply, yet the marker is still left out of
      the thread key. */
  lemma IndentedMarker(w0: string, p: string, w: string, x: string)
    requires w0 != [] && AllSpace(w0) && IsMarker(p) && AllSpace(w) && Trimmed(x)
    ensures !IsReply(w0 + p + w + x)
    ensures ThreadKey(w0 + p + w + x) == x
  {
    var s := p + w + x;
    assert w0 + p + w + x == w0 + s;
    IndentedIsNotReply(w0, s);
    MarkerEnds(p);
    assert s[0] == p[0];
    IndentationKeepsThreadKey(w0, s);
    StripsOneMarker(p, w, x);
  }

  lemma ReplyFlagIgnoresIndentedMarker()
    ensures !IsReply(" Re: x")
    ensures ThreadKey(" Re: x") == "x"
  {
    assert Lower("Re:") == "re:";
    assert IsSpace(' ') && !IsSpace('x');
    assert " Re: x" == " " + "Re:" + " " + "x";
    IndentedMarker(" ", "Re:", " ", "x");
  }

  /** has_link: "http" occurs in the lower-cased text. */
  predicate HasLink(data: string)
    ensures HasLink(data) <==> exists i :: OccursAt(Lower(data), "http", i)
  {
    ContainsAt(Lower(data), "http");
    Contains(Lower(data), "http")
  }

  /** get_content_maintype(): the part of the content type before '/'. */
  function MainType(contentType: string): (r: string)
    ensures '/' !in r
    ensures |r| <= |contentType| && contentType[..|r|] == r
    ensures |r| == |contentType| || contentType[|r|] == '/'
  {
    SplitOnHead(contentType, '/');
    SplitOn(contentType, '/')[0]
  }

  /** The main type is "text" exactly for "text" and the "text/..." types. */
  lemma MainTypeText(ct: string)
    ensures MainType(ct) == "text" <==> ct == "text" || StartsWith(ct, "text/")
  {
    var h := MainType(ct);
    SplitOnHead(ct, '/');
    assert '/' !in h;
    if h == "text" && |ct| != 4 {
      assert ct[..5] == h + "/";
    }
    if ct == "text" || StartsWith(ct, "text/") {
      assert ct[..4] == "text";
      assert forall i :: 0 <= i < 4 ==> ct[i] != '/';
      assert |h| >= 4;
      assert |ct| > 4 ==> ct[4] == '/';
      assert forall i :: 0 <= i < |h| ==> h[i] == ct[i];
      assert h == ct[..4];
    }
  }

  // ---------------------------------------------------------------------
  // extract_metadata
  // ---------------------------------------------------------------------

  /** message.get('Subject', '(No Subject)') */
  function SubjectOf(m: RawMessage): (r: string)
    ensures Header(m.headers, "Subject").None? ==> r == "(No Subject)"
    ensures Header(m.headers, "Subject").Some? ==> r == Header(m.headers, "Subject").value
  {
    Header(m.headers, "Subject").GetOr("(No Subject)")
  }

  /** str(message.get('Date')): an absent header becomes the text "None". */
  function DateText(m: RawMessage): (r: string)
    ensures Header(m.headers, "Date").None? ==> r == "None"
    ensures Header(m.headers, "Date").Some? ==> r == Header(m.headers, "Date").value
  {
    match Header(m.headers, "Date")
    case None => "None"
    case Some(d) => d
  }

  const MetadataKeys: set<string> :=
    {"subject", "from", "to", "cc", "date", "thread_id", "is_reply", "has_link", "n_tokens", "attachments"}

  /** The metadata dictionary built from the headers, the text and the ISO date. */
  function Fields(m: RawMessage, data: string, date: string, env: Env): Payload
  {
    var subject := SubjectOf(m);
    map[
      "subject" := Str(subject),
      "from" := (match Header(m.headers, "From") case None => Null case Some(f) => Str(f)),
      "to" := Str(Join(CleanAddr(Header(m.headers, "To")), ", ")),
      "cc" := Str(Join(CleanAddr(Header(m.headers, "Cc")), ", ")),
      "date" := Str(date),
      "thread_id" := Str(ThreadId(subject, env)),
      "is_reply" := Bool(IsReply(subject)),
      "has_link" := Bool(HasLink(data)),
      "n_tokens" := Int(|Words(data)|),
      "attachments" := Bool(MainType(m.body.contentType) != "text")
    ]
  }

  /** The dictionary has exactly the ten keys of the source. */
  lemma FieldsKeys(m: RawMessage, data: string, date: string, env: Env)
    ensures Fields(m, data, date, env).Keys == MetadataKeys
  {
  }

  /** What the derived fields of Fields mean: the subject defaults to
      "(No Subject)"; has_link holds exactly when "http" occurs somewhere in
      the lower-cased text; the words counted by n_tokens are, run together,
      the text's non-whitespace; attachments holds exactly for a content type
      outside "text". */
  lemma DerivedFields(m: RawMessage, data: string)
    ensures Header(m.headers, "Subject").None? ==> SubjectOf(m) == "(No Subject)"
    ensures HasLink(data) <==> exists i :: OccursAt(Lower(data), "http", i)
    ensures Concat(Words(data)) == RemoveSpaces(data)
    ensures |Words(data)| == |set i | 0 <= i < |data| && IsWordStart(data, i)|
    ensures MainType(m.body.contentType) != "text" <==>
      !(m.body.contentType == "text" || StartsWith(m.body.contentType, "text/"))
  {
    ContainsAt(Lower(data), "http");
    WordsKeepText(data);
    WordCount(data);
    MainTypeText(m.body.contentType);
  }

  /** The (metadata, data) pair of extract_metadata when it is not (None, None). */
  datatype Extracted = Extracted(metadata: Payload, data: string)

  /** extract_metadata for a message: None when its text is empty; an error
      when get_message raises or the Date header does not parse. */
  function MetadataOf(m: RawMessage, env: Env): Result<Option<Extracted>> {
    match MessageText(m.body, env)
    case Err(e) => Err(e)
    case Ok(data) =>
      if data == "" then Ok(None)
      else match env.parseDate(DateText(m))
        case None => Err(BadDate)
        case Some(date) => Ok(Some(Extracted(Fields(m, data, date, env), data)))
  }

  /** extract_metadata returns (None, None) exactly when get_message returns
      the empty text; otherwise its data is that text, or the error of
      get_message or of the date parse propagates. */
  lemma MetadataOfCases(m: RawMessage, env: Env)
    ensures MetadataOf(m, env) == Ok(None) <==> MessageText(m.body, env) == Ok("")
    ensures MessageText(m.body, env).Err? ==> MetadataOf(m, env) == Err(MessageText(m.body, env).error)
    ensures MetadataOf(m, env).Ok? && MetadataOf(m, env).value.Some? ==>
      MessageText(m.body, env) == Ok(MetadataOf(m, env).value.value.data)
      && MetadataOf(m, env).value.value.data != ""
      && MetadataOf(m, env).value.value.metadata.Keys == MetadataKeys
    ensures MessageText(m.body, env).Ok? && MessageText(m.body, env).value != "" ==>
      (MetadataOf(m, env).Err? <==> env.parseDate(DateText(m)).None?)
  {
    match MessageText(m.body, env)
    case Err(_) =>
    case Ok(data) =>
      if data != "" && env.parseDate(DateText(m)).Some? {
        FieldsKeys(m, data, env.parseDate(DateText(m)).value, env);
      }
  }

  /** extract_metadata(idx) on the archive: the lookup raises for a position
      the archive does not have. */
  function MetadataAt(mbox: seq<RawMessage>, idx: int, env: Env): Result<Option<Extracted>> {
    if 0 <= idx < |mbox| then MetadataOf(mbox[idx], env) else Err(NoSuchKey)
  }

  method ExtractMetadata(mbox: seq<RawMessage>, idx: int, env: Env) returns (r: Result<Option<Extracted>>)
    ensures r == MetadataAt(mbox, idx, env)
  {
    if !(0 <= idx < |mbox|) {
      return Err(NoSuchKey);
    }
    var message := mbox[idx];
    var data := GetMessage(message, env);
    if data.Err? {
      return Err(data.error);
    }
    if data.value == "" {
      return Ok(None);
    }
    var date := env.parseDate(DateText(message));
    if date.None? {
      return Err(BadDate);
    }
    r := Ok(Some(Extracted(Fields(message, data.value, date.value, env), data.value)));
  }
}
