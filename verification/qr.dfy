/** QR code requests: the payload each tab builds (plain text, a URL with
    a scheme, a `mailto:` URI after section 2 of RFC 6068, a `tel:` URI
    after section 3 of RFC 3966) and the image-service URL that carries
    it, in the plugin page, the plugin's script.js and the React page. */
module Qr {
  import opened Base
  import opened Uri

  // ---------------------------------------------------------------------
  // Payloads of the plugin page
  // ---------------------------------------------------------------------

  datatype Tab = TextTab | UrlTab | EmailTab | PhoneTab

  /** The input fields of the plugin page: the active tab's single input,
      and the three fields of the email tab. */
  datatype Form = Form(input: string, email: string, subject: string, body: string)

  predicate HasScheme(s: string) {
    StartsWith(s, "http://") || StartsWith(s, "https://")
  }

  /** The URL tab: "https://" is put in front of a non-empty input that
      has neither scheme. */
  function UrlPayload(input: string): (p: string)
    ensures p == input || p == "https://" + input
    ensures input != [] ==> HasScheme(p)
    ensures HasScheme(input) ==> p == input
  {
    if input != [] && !HasScheme(input) then "https://" + input else input
  }

  /** Adding the scheme twice adds it once. */
  lemma UrlPayloadIdempotent(input: string)
    ensures UrlPayload(UrlPayload(input)) == UrlPayload(input)
  {
  }

  /** The `hfields` of the mailto URI: `subject=` and `body=` with encoded
      values, each only when the field is non-empty. */
  function MailtoParams(subject: string, body: string): (ps: seq<string>)
    ensures |ps| <= 2
    ensures forall i :: 0 <= i < |ps| ==> IsPlainParam(ps[i])
    ensures |ps| == 0 <==> subject == [] && body == []
  {
    EncodedParamIsPlain("subject", subject);
    EncodedParamIsPlain("body", body);
    (if subject != [] then [Param("subject", Encode(subject))] else [])
    + (if body != [] then [Param("body", Encode(body))] else [])
  }

  /** The email tab: nothing without an address; otherwise "mailto:" and
      the address, then "?" and the parameters joined by "&" when there
      are any. */
  function EmailPayload(email: string, subject: string, body: string): (p: string)
    ensures email == [] ==> p == []
    ensures email != [] ==> StartsWith(p, "mailto:" + email)
  {
    if email == [] then []
    else
      var params := MailtoParams(subject, body);
      "mailto:" + email + (if |params| > 0 then "?" + Join(params, "&") else [])
  }

  lemma JoinNoSeparator(parts: seq<string>, c: char)
    requires forall i :: 0 <= i < |parts| ==> c != '&' && c !in parts[i]
    ensures c !in Join(parts, "&")
  {
    if |parts| > 1 {
      JoinNoSeparator(parts[1..], c);
    }
  }

  lemma {:induction false} SplitJoin(parts: seq<string>, c: char)
    requires |parts| >= 1
    requires forall i :: 0 <= i < |parts| ==> c !in parts[i]
    ensures Split(Join(parts, [c]), c) == parts
  {
    if |parts| == 1 {
      SplitNone(parts[0], c);
    } else {
      SplitJoin(parts[1..], c);
      SplitAround(parts[0], Join(parts[1..], [c]), c);
      assert parts == [parts[0]] + parts[1..];
    }
  }

  /** A reader of the mailto URI recovers the address and each parameter:
      the first "?" ends the address, the "&"s separate the parameters,
      and each value decodes back to the field it came from. */
  lemma MailtoReadsBack(email: string, subject: string, body: string)
    requires email != [] && '?' !in email
    ensures var pieces := Split(EmailPayload(email, subject, body), '?');
      && pieces[0] == "mailto:" + email
      && (subject == [] && body == [] ==> |pieces| == 1)
      && (subject != [] || body != [] ==>
            |pieces| == 2 && Split(pieces[1], '&') == MailtoParams(subject, body))
    ensures subject != [] ==> Decode(Encode(subject)) == Some(subject)
    ensures body != [] ==> Decode(Encode(body)) == Some(body)
  {
    var head := "mailto:" + email;
    var params := MailtoParams(subject, body);
    assert '?' !in head;
    if |params| == 0 {
      assert EmailPayload(email, subject, body) == head;
      SplitNone(head, '?');
    } else {
      assert EmailPayload(email, subject, body) == WithQuery(head, params);
      QueryPieces(head, params);
    }
    DecodeEncode(subject);
    DecodeEncode(body);
  }

  /** The phone tab: "tel:" and the number, or nothing. */
  function PhonePayload(phone: string): (p: string)
    ensures phone == [] <==> p == []
    ensures phone != [] ==> StartsWith(p, "tel:") && p[4..] == phone
  {
    if phone != [] then "tel:" + phone else []
  }

  /** The content of the active tab. */
  function Payload(tab: Tab, form: Form): (p: string)
    ensures tab == TextTab ==> p == form.input
  {
    match tab
    case TextTab => form.input
    case UrlTab => UrlPayload(form.input)
    case EmailTab => EmailPayload(form.email, form.subject, form.body)
    case PhoneTab => PhonePayload(form.input)
  }

  // ---------------------------------------------------------------------
  // Image-service URLs
  // ---------------------------------------------------------------------

  /** A query parameter `name=value`. */
  function Param(name: string, value: string): string {
    name + "=" + value
  }

  /** `base?p1&p2&…`. */
  function WithQuery(base: string, params: seq<string>): string {
    base + "?" + Join(params, "&")
  }

  /** A parameter that neither ends the query nor the parameter early. */
  predicate IsPlainParam(p: string) {
    '&' !in p && '?' !in p
  }

  /** A reader of the URL splits it at the first "?" and the query at
      each "&", and so gets back the base and every parameter. */
  lemma QueryReadsBack(base: string, params: seq<string>)
    requires '?' !in base && |params| >= 1
    requires forall i :: 0 <= i < |params| ==> IsPlainParam(params[i])
    ensures Split(WithQuery(base, params), '?') == [base, Join(params, "&")]
    ensures Split(Join(params, "&"), '&') == params
  {
    QueryHead(base, params);
    SplitJoin(params, '&');
  }

  lemma QueryHead(base: string, params: seq<string>)
    requires '?' !in base
    requires forall i :: 0 <= i < |params| ==> IsPlainParam(params[i])
    ensures Split(WithQuery(base, params), '?') == [base, Join(params, "&")]
  {
    var query := Join(params, "&");
    JoinNoSeparator(params, '?');
    assert WithQuery(base, params) == base + ['?'] + query;
    SplitOnce(base, query, '?');
  }

  /** A text with exactly one separator splits into the two sides. */
  lemma SplitOnce(a: string, b: string, c: char)
    requires c !in a && c !in b
    ensures Split(a + [c] + b, c) == [a, b]
  {
    SplitAround(a, b, c);
    SplitNone(b, c);
  }

  /** The same, as the two pieces a reader of the URL sees. */
  lemma QueryPieces(base: string, params: seq<string>)
    requires '?' !in base && |params| >= 1
    requires forall i :: 0 <= i < |params| ==> IsPlainParam(params[i])
    ensures var pieces := Split(WithQuery(base, params), '?');
      |pieces| == 2 && pieces[0] == base && Split(pieces[1], '&') == params
  {
    QueryReadsBack(base, params);
  }

  /** A parameter whose value is an encoded component is plain. */
  lemma EncodedParamIsPlain(name: string, s: string)
    requires IsPlainParam(name)
    ensures IsPlainParam(Param(name, Encode(s)))
  {
    PlainParamOf(name, Encode(s));
  }

  datatype Ecc = Low | Medium | Quartile | High

  /** The error-correction letter of the select. */
  function EccLetter(e: Ecc): (c: char)
    ensures c in "LMQH"
  {
    match e
    case Low => 'L'
    case Medium => 'M'
    case Quartile => 'Q'
    case High => 'H'
  }

  /** Sizes offered by the plugin page's select, in pixels. */
  const PluginSizes: seq<nat> := [150, 200, 300, 400]

  const QrServer: string := "https://api.qrserver.com/v1/create-qr-code/"

  const ChartApi: string := "https://chart.googleapis.com/chart"

  lemma QrServerHasNoQuery()
    ensures '?' !in QrServer
  {
  }

  lemma ChartApiHasNoQuery()
    ensures '?' !in ChartApi
  {
  }

  /** "SxS" for a size in pixels. */
  function Dimensions(size: nat): (d: string)
    ensures IsPlainParam(d)
  {
    var s := NatToString(size);
    assert forall i :: 0 <= i < |s| ==> IsDigit(s[i]);
    s + "x" + s
  }

  /** The query of the plugin page's image URL. */
  function QrServerParams(size: nat, ecc: Ecc, content: string): (ps: seq<string>)
    ensures |ps| == 3
    ensures forall i :: 0 <= i < |ps| ==> IsPlainParam(ps[i])
    ensures ps[0] == Param("size", Dimensions(size)) && ps[1] == Param("ecc", [EccLetter(ecc)])
    ensures ps[2] == Param("data", Encode(content))
  {
    PlainParamOf("size", Dimensions(size));
    PlainParamOf("ecc", [EccLetter(ecc)]);
    EncodedParamIsPlain("data", content);
    [Param("size", Dimensions(size)), Param("ecc", [EccLetter(ecc)]), Param("data", Encode(content))]
  }

  /** The image URL of the plugin page. */
  function QrServerUrl(size: nat, ecc: Ecc, content: string): string {
    WithQuery(QrServer, QrServerParams(size, ecc, content))
  }

  /** Reading the URL's query gives back its three parameters (the size,
      the error-correction level and the data), and the data decodes to
      the content. */
  lemma QrServerUrlReadsBack(size: nat, ecc: Ecc, content: string)
    ensures var pieces := Split(QrServerUrl(size, ecc, content), '?');
      && |pieces| == 2 && pieces[0] == QrServer
      && Split(pieces[1], '&') == QrServerParams(size, ecc, content)
    ensures Decode(Encode(content)) == Some(content)
  {
    QrServerHasNoQuery();
    QueryPieces(QrServer, QrServerParams(size, ecc, content));
    DecodeEncode(content);
  }

  /** What the plugin page shows under the image: the content, cut to 50
      characters followed by "..." when it is longer. */
  function Preview(content: string): (p: string)
    ensures |p| <= 53
    ensures |content| <= 50 ==> p == content
    ensures |content| > 50 ==> |p| == 53 && p[..50] == content[..50] && p[50..] == "..."
  {
    if |content| > 50 then content[..50] + "..." else content
  }

  datatype QrView = QrView(url: string, preview: string)

  /** `generateQRCode` of the plugin page: blank content is refused,
      anything else is sent to the image service. */
  function GenerateQrCode(tab: Tab, form: Form, size: nat, ecc: Ecc): (r: Result<QrView>)
    ensures r.Err? <==> IsBlank(Payload(tab, form))
    ensures r.Err? ==> r.message == "Please enter content to generate QR code"
    ensures r.Ok? ==> r.value == QrView(QrServerUrl(size, ecc, Payload(tab, form)), Preview(Payload(tab, form)))
  {
    var content := Payload(tab, form);
    if IsBlank(content) then Err("Please enter content to generate QR code")
    else Ok(QrView(QrServerUrl(size, ecc, content), Preview(content)))
  }

  /** Only white-space text is refused on the text tab; on the URL tab a
      white-space input gains the scheme and is accepted. */
  lemma BlankUrlInputAccepted(form: Form)
    requires form.input != [] && IsBlank(form.input)
    ensures GenerateQrCode(TextTab, form, 200, Medium).Err?
    ensures GenerateQrCode(UrlTab, form, 200, Medium).Ok?
  {
    var p := UrlPayload(form.input);
    assert p[0] == 'h';
    BlankIffAllSpace(p);
  }

  // ---------------------------------------------------------------------
  // script.js
  // ---------------------------------------------------------------------

  /** `generateQRCode(text, size)` of script.js: the same service without
      the error-correction parameter. */
  function ScriptQrUrl(text: string, size: nat): string {
    WithQuery(QrServer, ScriptParams(text, size))
  }

  function ScriptParams(text: string, size: nat): (ps: seq<string>)
    ensures |ps| == 2
    ensures forall i :: 0 <= i < |ps| ==> IsPlainParam(ps[i])
    ensures ps[0] == Param("size", Dimensions(size)) && ps[1] == Param("data", Encode(text))
  {
    PlainParamOf("size", Dimensions(size));
    EncodedParamIsPlain("data", text);
    [Param("size", Dimensions(size)), Param("data", Encode(text))]
  }

  /** The script's URL carries its two parameters, the size and the
      text, and the text decodes back. */
  lemma ScriptQrUrlReadsBack(text: string, size: nat)
    ensures var pieces := Split(ScriptQrUrl(text, size), '?');
      && |pieces| == 2 && pieces[0] == QrServer
      && Split(pieces[1], '&') == ScriptParams(text, size)
    ensures Decode(Encode(text)) == Some(text)
  {
    QrServerHasNoQuery();
    QueryPieces(QrServer, ScriptParams(text, size));
    DecodeEncode(text);
  }

  /** `updateQRCode`: the size of the select, 200 without one; blank text
      is refused. */
  function UpdateQrCode(text: string, selected: Option<nat>): (r: Result<string>)
    ensures r.Err? <==> IsBlank(text)
    ensures r.Err? ==> r.message == "Please enter text to generate QR code"
    ensures selected.None? && r.Ok? ==> r.value == ScriptQrUrl(text, 200)
    ensures selected.Some? && r.Ok? ==> r.value == ScriptQrUrl(text, selected.value)
  {
    var size := match selected case Some(s) => s case None => 200;
    if IsBlank(text) then Err("Please enter text to generate QR code")
    else Ok(ScriptQrUrl(text, size))
  }

  // ---------------------------------------------------------------------
  // The React page
  // ---------------------------------------------------------------------

  /** Content of the React page: a URL gains "https://" unless it starts
      with "http"; email and phone always gain their scheme. */
  function ReactPayload(tab: Tab, content: string): (p: string)
    ensures tab == UrlTab ==> StartsWith(p, "http")
    ensures tab == UrlTab && StartsWith(content, "http") ==> p == content
    ensures tab == EmailTab ==> p == "mailto:" + content
    ensures tab == PhoneTab ==> p == "tel:" + content
    ensures tab == TextTab ==> p == content
  {
    match tab
    case TextTab => content
    case UrlTab => if StartsWith(content, "http") then content else "https://" + content
    case EmailTab => "mailto:" + content
    case PhoneTab => "tel:" + content
  }

  /** The two URL rules differ: a host name that merely begins with
      "http" gets no scheme on the React page. */
  lemma UrlRulesDiffer()
    ensures ReactPayload(UrlTab, "httpbin.org") == "httpbin.org"
    ensures UrlPayload("httpbin.org") == "https://httpbin.org"
  {
    assert "httpbin.org"[..7][4] == 'b';
    assert "httpbin.org"[..8][4] == 'b';
    assert !HasScheme("httpbin.org");
  }

  /** `substring(1)`: the colour without its leading '#'. */
  function DropFirst(s: string): (r: string)
    ensures |s| >= 1 ==> [s[0]] + r == s
    ensures |s| == 0 ==> r == []
  {
    if |s| >= 1 then s[1..] else []
  }

  /** The query of the chart URL. */
  function ChartParams(size: nat, content: string, qrColor: string, bgColor: string): (ps: seq<string>)
    ensures |ps| == 5
    ensures ps[0] == Param("cht", "qr") && ps[1] == Param("chs", Dimensions(size))
    ensures ps[2] == Param("chl", Encode(content))
    ensures ps[3] == Param("chco", DropFirst(qrColor)) && ps[4] == Param("chf", "bg,s," + DropFirst(bgColor))
  {
    [Param("cht", "qr"), Param("chs", Dimensions(size)), Param("chl", Encode(content)),
     Param("chco", DropFirst(qrColor)), Param("chf", "bg,s," + DropFirst(bgColor))]
  }

  /** A name and a value without separators make a plain parameter. */
  lemma PlainParamOf(name: string, value: string)
    requires IsPlainParam(name) && IsPlainParam(value)
    ensures IsPlainParam(Param(name, value))
  {
  }

  /** With colours free of separators every chart parameter is plain. */
  lemma ChartParamsPlain(size: nat, content: string, qrColor: string, bgColor: string)
    requires IsPlainParam(qrColor) && IsPlainParam(bgColor)
    ensures forall i :: 0 <= i < 5 ==> IsPlainParam(ChartParams(size, content, qrColor, bgColor)[i])
  {
    var qr := DropFirst(qrColor);
    var bg := DropFirst(bgColor);
    assert IsPlainParam(qr) by {
      assert forall c :: c in qr ==> c in qrColor;
    }
    assert IsPlainParam("bg,s," + bg) by {
      assert forall c :: c in bg ==> c in bgColor;
    }
    PlainParamOf("cht", "qr");
    PlainParamOf("chs", Dimensions(size));
    EncodedParamIsPlain("chl", content);
    PlainParamOf("chco", qr);
    PlainParamOf("chf", "bg,s," + bg);
  }

  /** The chart URL of the React page. */
  function ChartUrl(size: nat, content: string, qrColor: string, bgColor: string): string {
    WithQuery(ChartApi, ChartParams(size, content, qrColor, bgColor))
  }

  /** With colours free of "&" and "?", as the colour pickers give them
      (`#rrggbb`), the query splits into its five parameters (type, size,
      content, colour, background) and the content decodes back. */
  lemma ChartUrlReadsBack(size: nat, content: string, qrColor: string, bgColor: string)
    requires IsPlainParam(qrColor) && IsPlainParam(bgColor)
    ensures var pieces := Split(ChartUrl(size, content, qrColor, bgColor), '?');
      && |pieces| == 2 && pieces[0] == ChartApi
      && Split(pieces[1], '&') == ChartParams(size, content, qrColor, bgColor)
    ensures Decode(Encode(content)) == Some(content)
  {
    ChartApiHasNoQuery();
    ChartParamsPlain(size, content, qrColor, bgColor);
    QueryPieces(ChartApi, ChartParams(size, content, qrColor, bgColor));
    DecodeEncode(content);
  }

  /** `generateQRCode` of the React page: only empty content is refused
      (white space is accepted). */
  function ReactGenerate(tab: Tab, content: string, size: nat, qrColor: string, bgColor: string): (r: Result<string>)
    ensures r.Err? <==> content == []
    ensures r.Err? ==> r.message == "Please enter content for the QR code"
    ensures r.Ok? ==> r.value == ChartUrl(size, ReactPayload(tab, content), qrColor, bgColor)
  {
    if content == [] then Err("Please enter content for the QR code")
    else Ok(ChartUrl(size, ReactPayload(tab, content), qrColor, bgColor))
  }

  /** Sizes of the React slider: 100 to 500 in steps of 50. */
  function ReactSizes(): (sizes: seq<nat>)
    ensures |sizes| == 9
    ensures forall i :: 0 <= i < |sizes| ==> 100 <= sizes[i] <= 500 && sizes[i] % 50 == 0
    ensures forall s: nat :: 100 <= s <= 500 && s % 50 == 0 ==> s in sizes
  {
    var sizes := seq(9, i requires 0 <= i < 9 => 100 + 50 * i);
    assert forall s: nat :: 100 <= s <= 500 && s % 50 == 0 ==> sizes[(s - 100) / 50] == s;
    sizes
  }
}
