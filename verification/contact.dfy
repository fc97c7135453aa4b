/**
  The contact form's state: the draft `formData` (an object keyed by input
  name) and the `hasFile` flag, with the three handlers that change or read them.
*/
module Contact {
  import opened Wrappers
  import opened UriComponent
  import opened WhatsApp

  /** The names of the four text inputs of the form. */
  const FieldNames: set<string> := {"nome", "estilo", "local", "tamanho"}

  /** The object spread `{ ...form, [name]: value }`: the named entry takes the
      new value (and is added if it was absent); every other entry is kept. */
  function SetField(form: map<string, string>, name: string, value: string): (r: map<string, string>)
    ensures name in r && r[name] == value
    ensures r.Keys == form.Keys + {name}
    ensures forall k | k in form && k != name :: r[k] == form[k]
  {
    form[name := value]
  }

  class ContactForm {
    var formData: map<string, string>
    var hasFile: bool

    /** Every input of the form has an entry in the draft. */
    ghost predicate Valid()
      reads this
    {
      FieldNames <= formData.Keys
    }

    /** The draft as the quote it would send. */
    function Draft(): Quote
      reads this
      requires Valid()
    {
      Quote(formData["nome"], formData["estilo"], formData["local"], formData["tamanho"], hasFile)
    }

    constructor ()
      ensures Valid()
      ensures formData == map["nome" := "", "estilo" := "", "local" := "", "tamanho" := ""]
      ensures !hasFile
      ensures Draft() == Quote("", "", "", "", false)
    {
      formData := map["nome" := "", "estilo" := "", "local" := "", "tamanho" := ""];
      hasFile := false;
    }

    /** A keystroke in the input called `name`: that entry becomes `value`, the rest are kept. */
    method HandleInputChange(name: string, value: string)
      requires Valid()
      modifies this
      ensures Valid()
      ensures formData == SetField(old(formData), name, value)
      ensures hasFile == old(hasFile)
    {
      formData := SetField(formData, name, value);
    }

    /** A file pick with `fileCount` files: the flag is set when at least one
        file was picked and is never cleared. */
    method HandleFileChange(fileCount: nat)
      requires Valid()
      modifies this
      ensures Valid()
      ensures hasFile == Picked(old(hasFile), fileCount)
      ensures formData == old(formData)
    {
      if fileCount > 0 {
        hasFile := true;
      }
    }

    /** Submitting builds the message line by line and gives the link the
        browser is asked to open; the link carries the draft's message intact. */
    method HandleWhatsAppSubmit() returns (url: string)
      requires Valid()
      ensures url == WhatsAppUrl(Message(Draft()))
      ensures UrlPrefix <= url && TextParameter(url) == Some(Message(Draft()))
    {
      var message := Greeting;
      message := message + NomeLabel + formData["nome"] + "\n";
      ghost var afterNome := message;
      message := message + EstiloLabel + formData["estilo"] + "\n";
      ghost var afterEstilo := message;
      message := message + LocalLabel + formData["local"] + "\n";
      ghost var afterLocal := message;
      message := message + TamanhoLabel + formData["tamanho"] + "\n";
      ghost var afterTamanho := message;
      if hasFile {
        message := message + PhotoLine;
      }
      var q := Draft();
      assert afterNome == Greeting + Line(NomeLabel, q.nome);
      assert afterEstilo == afterNome + Line(EstiloLabel, q.estilo);
      assert afterLocal == afterEstilo + Line(LocalLabel, q.local);
      assert afterTamanho == afterLocal + Line(TamanhoLabel, q.tamanho);
      assert message == afterTamanho + Closing(q.hasFile);
      AppendsNest(Greeting, Line(NomeLabel, q.nome), Line(EstiloLabel, q.estilo),
        Line(LocalLabel, q.local), Line(TamanhoLabel, q.tamanho), Closing(q.hasFile));
      var encodedMessage := EncodeURIComponent(message);
      var phoneNumber := "5584998979050";
      url := "https://wa.me/" + phoneNumber + "?text=" + encodedMessage;
      assert url == UrlPrefix + encodedMessage;
      UrlRoundTrip(message);
    }
  }

  /** The file flag after a pick of `fileCount` files: set by a non-empty pick, otherwise kept. */
  function Picked(hasFile: bool, fileCount: nat): bool {
    hasFile || fileCount > 0
  }

  /** Successive appends build the same text as the nested template. */
  lemma AppendsNest(a: string, b: string, c: string, d: string, e: string, f: string)
    ensures a + b + c + d + e + f == a + (b + (c + (d + (e + f))))
  {
  }

  /** After a series of picks the flag is set exactly when it was set before or
      some pick held a file: no pick clears it. */
  lemma {:induction false} FileFlagSticks(hasFile: bool, picks: seq<nat>)
    ensures AfterPicks(hasFile, picks) == (hasFile || exists i | 0 <= i < |picks| :: picks[i] > 0)
    decreases |picks|
  {
    if picks != [] {
      FileFlagSticks(Picked(hasFile, picks[0]), picks[1..]);
      assert forall i | 1 <= i < |picks| :: picks[i] == picks[1..][i - 1];
      assert forall i | 0 <= i < |picks| - 1 :: picks[1..][i] == picks[i + 1];
    }
  }

  /** The flag after a series of file picks, each applied as `HandleFileChange` applies it. */
  function AfterPicks(hasFile: bool, picks: seq<nat>): bool
    decreases |picks|
  {
    if picks == [] then hasFile else AfterPicks(Picked(hasFile, picks[0]), picks[1..])
  }
}
