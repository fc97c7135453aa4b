/**
  The quote request the contact form sends: a fixed greeting, four labelled
  lines in a fixed order, an optional reference-photo line, and the
  `wa.me` link that carries the percent-encoded text.  `ParseMessage` reads a
  message back into its fields; it is the partner the template is proved against.
*/
module WhatsApp {
  import opened Wrappers
  import opened UriComponent

  const PhoneNumber := "5584998979050"
  const UrlPrefix := "https://wa.me/" + PhoneNumber + "?text="

  const Greeting := "Olá! Visitei o site da La Famille Tattoo e gostaria de solicitar um orçamento.\n\n"
  const NomeLabel := "*Nome:* "
  const EstiloLabel := "*Ideia/Estilo:* "
  const LocalLabel := "*Local do Corpo:* "
  const TamanhoLabel := "*Tamanho Aprox:* "
  const PhotoLine := "\n\U{1F4F7} *Tenho uma foto de referência para enviar!* (Vou anexar aqui na conversa)"

  /** What the studio receives: the four form fields and whether a reference photo was picked. */
  datatype Quote = Quote(nome: string, estilo: string, local: string, tamanho: string, hasFile: bool)

  /** A value a text input can hold: browsers strip line breaks from `type="text"` inputs. */
  predicate LineFree(s: string) {
    '\n' !in s
  }

  predicate FieldsLineFree(q: Quote) {
    LineFree(q.nome) && LineFree(q.estilo) && LineFree(q.local) && LineFree(q.tamanho)
  }

  function Line(caption: string, value: string): string {
    caption + value + "\n"
  }

  /** The message text, greeting first, then the labelled lines in form order. */
  function Message(q: Quote): (m: string)
    ensures Greeting + Line(NomeLabel, q.nome) <= m
    ensures m[|m| - 1] == if q.hasFile then ')' else '\n'
  {
    Greeting +
      (Line(NomeLabel, q.nome) +
        (Line(EstiloLabel, q.estilo) +
          (Line(LocalLabel, q.local) +
            (Line(TamanhoLabel, q.tamanho) + Closing(q.hasFile)))))
  }

  /** The reference-photo line when a file was picked, nothing otherwise. */
  function Closing(hasFile: bool): string {
    if hasFile then PhotoLine else ""
  }

  /** The link the submit handler opens. */
  function WhatsAppUrl(message: string): (url: string)
    ensures UrlPrefix <= url
    ensures |UrlPrefix| + |message| <= |url|
  {
    UrlPrefix + EncodeURIComponent(message)
  }

  /** Splits `s` at its first line break. */
  function SplitLine(s: string): (r: Option<(string, string)>)
    ensures r.Some? ==> LineFree(r.value.0) && r.value.0 + "\n" + r.value.1 == s
    ensures r.None? ==> LineFree(s)
  {
    if s == [] then None
    else if s[0] == '\n' then Some(([], s[1..]))
    else match SplitLine(s[1..])
      case None => None
      case Some((v, rest)) => Some(([s[0]] + v, rest))
  }

  /** Reads one `caption value\n` line from the front of `s`, giving the value and what follows. */
  function ParseLine(caption: string, s: string): Option<(string, string)> {
    if caption <= s then SplitLine(s[|caption|..]) else None
  }

  /** Reads a message back into the quote it was built from; `None` for any
      text that is not of the template's shape. */
  function ParseMessage(m: string): Option<Quote> {
    if Greeting <= m then ParseLines(m[|Greeting|..]) else None
  }

  /** The four labelled lines, in form order, then the closing part. */
  function ParseLines(s: string): Option<Quote> {
    match ParseLine(NomeLabel, s)
    case None => None
    case Some((nome, r1)) => match ParseLine(EstiloLabel, r1)
      case None => None
      case Some((estilo, r2)) => match ParseLine(LocalLabel, r2)
        case None => None
        case Some((local, r3)) => match ParseLine(TamanhoLabel, r3)
          case None => None
          case Some((tamanho, r4)) => match ParsePhotoLine(r4)
            case None => None
            case Some(hasFile) => Some(Quote(nome, estilo, local, tamanho, hasFile))
  }

  /** What may follow the last labelled line: nothing, or the reference-photo line. */
  function ParsePhotoLine(s: string): Option<bool> {
    if s == [] then Some(false) else if s == PhotoLine then Some(true) else None
  }

  /** A line-free value followed by a line break splits off exactly. */
  lemma {:induction false} SplitLineOf(v: string, rest: string)
    requires LineFree(v)
    ensures SplitLine(v + "\n" + rest) == Some((v, rest))
  {
    var s := v + "\n" + rest;
    if v == [] {
      assert s[0] == '\n' && s[1..] == rest;
    } else {
      assert s[0] == v[0] != '\n';
      assert s[1..] == v[1..] + "\n" + rest;
      SplitLineOf(v[1..], rest);
      assert [v[0]] + v[1..] == v;
    }
  }

  lemma ParseLineOf(caption: string, v: string, rest: string)
    requires LineFree(v)
    ensures ParseLine(caption, Line(caption, v) + rest) == Some((v, rest))
  {
    var s := Line(caption, v) + rest;
    assert s[|caption|..] == v + "\n" + rest;
    SplitLineOf(v, rest);
  }

  /** The message determines the quote: the studio reads back each field
      verbatim, in its place, and whether a photo was announced. */
  lemma MessageRoundTrip(q: Quote)
    requires FieldsLineFree(q)
    ensures ParseMessage(Message(q)) == Some(q)
  {
    var tail := Closing(q.hasFile);
    var r4 := Line(TamanhoLabel, q.tamanho) + tail;
    var r3 := Line(LocalLabel, q.local) + r4;
    var r2 := Line(EstiloLabel, q.estilo) + r3;
    var r1 := Line(NomeLabel, q.nome) + r2;
    assert Message(q)[|Greeting|..] == r1;
    ParseLineOf(NomeLabel, q.nome, r2);
    ParseLineOf(EstiloLabel, q.estilo, r3);
    ParseLineOf(LocalLabel, q.local, r4);
    ParseLineOf(TamanhoLabel, q.tamanho, tail);
    assert ParsePhotoLine(tail) == Some(q.hasFile);
    assert ParseLines(r1) == Some(q);
  }

  /** The reference-photo line closes the message exactly when a file was picked. */
  lemma PhotoLineIffFile(q: Quote)
    ensures PhotoLine <= Message(q)[|Message(q)| - |PhotoLine|..] <==> q.hasFile
  {
    var m := Message(q);
    if q.hasFile {
      assert m[|m| - |PhotoLine|..] == PhotoLine;
    } else {
      assert m[|m| - 1] == '\n';
      assert PhotoLine[|PhotoLine| - 1] == ')';
    }
  }

  /** The text parameter of a link of the site's form, decoded; `None` for any other link. */
  function TextParameter(url: string): Option<string> {
    if UrlPrefix <= url then DecodeURIComponent(url[|UrlPrefix|..]) else None
  }

  /** The link carries the message intact behind the fixed prefix. */
  lemma UrlRoundTrip(message: string)
    ensures UrlPrefix <= WhatsAppUrl(message)
    ensures TextParameter(WhatsAppUrl(message)) == Some(message)
  {
    assert WhatsAppUrl(message)[|UrlPrefix|..] == EncodeURIComponent(message);
    DecodeEncode(message);
  }

  /** Everything after the prefix is unreserved characters and escapes, so the
      query holds the one `text` parameter and no fragment. */
  lemma SingleTextParameter(message: string)
    ensures forall i | |UrlPrefix| <= i < |WhatsAppUrl(message)| ::
      WhatsAppUrl(message)[i] !in "&#=?/ "
  {
    var e := EncodeURIComponent(message);
    var url := UrlPrefix + e;
    assert WhatsAppUrl(message) == url;
    forall i | |UrlPrefix| <= i < |url|
      ensures url[i] !in "&#=?/ "
    {
      var c := e[i - |UrlPrefix|];
      assert url[i] == c;
      assert IsUnreserved(c) || c == '%';
    }
  }

  /** Equal links come only from equal quotes (for values a text input can hold). */
  lemma SubmissionDeterminesQuote(q1: Quote, q2: Quote)
    requires FieldsLineFree(q1) && FieldsLineFree(q2)
    requires WhatsAppUrl(Message(q1)) == WhatsAppUrl(Message(q2))
    ensures q1 == q2
  {
    UrlRoundTrip(Message(q1));
    UrlRoundTrip(Message(q2));
    MessageRoundTrip(q1);
    MessageRoundTrip(q2);
  }

  /** The message for the quote of Ana, Realismo, Braço, 15cm, with no photo. */
  lemma ExampleMessage()
    ensures Message(Quote("Ana", "Realismo", "Braço", "15cm", false)) ==
      Greeting
      + "*Nome:* Ana\n"
      + "*Ideia/Estilo:* Realismo\n"
      + "*Local do Corpo:* Braço\n"
      + "*Tamanho Aprox:* 15cm\n"
  {
    var l1, l2, l3, l4 := Line(NomeLabel, "Ana"), Line(EstiloLabel, "Realismo"), Line(LocalLabel, "Braço"), Line(TamanhoLabel, "15cm");
    assert l1 == "*Nome:* Ana\n";
    assert l2 == "*Ideia/Estilo:* Realismo\n";
    assert l3 == "*Local do Corpo:* Braço\n";
    assert l4 == "*Tamanho Aprox:* 15cm\n";
    assert l4 + Closing(false) == l4;
    assert Greeting + (l1 + (l2 + (l3 + l4))) == Greeting + l1 + l2 + l3 + l4;
  }
}
