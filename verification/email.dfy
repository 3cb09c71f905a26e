/** The verification message: the payload POSTed to the mail provider's send endpoint
    and the "throw unless the provider answered ok" contract. */
module Email {
  import opened Common
  import opened Strings
  import opened Tokens

  /** Environment settings read at module load; `None` is an unset variable. */
  datatype Config = Config(apiKey: Option<string>, verificationTemplateId: Option<string>, siteLink: Option<string>)

  /** A `{ email, name }` pair; an undefined name is dropped from the JSON. */
  datatype Address = Address(email: string, name: Option<string>)

  /** The request sent to the provider. */
  datatype VerificationMail = VerificationMail(
    endpoint: string,
    authorization: string,
    to: Address,
    from: Address,
    templateId: Option<string>,
    dynamicName: string,
    link: string,
    replyTo: string,
    test: bool)

  const SendEndpoint: string := "https://api.autosend.com/v1/mails/send"
  const Sender: Address := Address("newsletter@mail.adarshdubey.com", Some("Adarsh Dubey"))
  const ReplyTo: string := "dubeyadarshmain@gmail.com"
  const LinkQuery: string := "/?verification-token="

  /** `${v}` in a template literal: an unset variable prints as "undefined". */
  function Interpolate(v: Option<string>): string {
    match v
    case Some(s) => s
    case None => "undefined"
  }

  /** `name || email`: the name unless it is missing or empty. */
  function GreetingName(email: string, name: Option<string>): (r: string)
    ensures r == email || (name.Some? && r == name.value && r != "")
    ensures name.Some? && name.value != "" ==> r == name.value
  {
    if name.Some? && name.value != "" then name.value else email
  }

  /** The link embedded in the message: the site link, the query key, the token. */
  function VerificationLink(siteLink: Option<string>, token: string): (link: string)
    ensures |link| == |Interpolate(siteLink)| + |LinkQuery| + |token|
    ensures link[..|Interpolate(siteLink)|] == Interpolate(siteLink)
    ensures link[|Interpolate(siteLink)|..|link| - |token|] == LinkQuery
    ensures link[|link| - |token|..] == token
    ensures link[|link| - |token| - 1] == '='
  {
    Interpolate(siteLink) + LinkQuery + token
  }

  /** The request body `sendVerificationEmail(email, token, name)` builds. */
  function VerificationMailFor(cfg: Config, email: string, token: string, name: Option<string>): (m: VerificationMail)
    ensures m.to == Address(email, name)
    ensures m.templateId == cfg.verificationTemplateId
    ensures m.dynamicName == GreetingName(email, name)
    ensures m.link == VerificationLink(cfg.siteLink, token)
    ensures m.from == Sender && m.replyTo == ReplyTo && m.test
    ensures m.endpoint == SendEndpoint && m.authorization == "Bearer " + Interpolate(cfg.apiKey)
  {
    VerificationMail(
      SendEndpoint, "Bearer " + Interpolate(cfg.apiKey), Address(email, name), Sender,
      cfg.verificationTemplateId, GreetingName(email, name),
      VerificationLink(cfg.siteLink, token), ReplyTo, true)
  }

  /** Whether `sendVerificationEmail` returns normally or throws. */
  datatype Delivery = Delivered | Threw

  /** One call of `sendVerificationEmail`: the request it makes, and the outcome, which
      is a throw whenever the provider's response is not ok (or the fetch fails). */
  datatype SendAttempt = SendAttempt(mail: VerificationMail, delivery: Delivery)

  function SendVerificationEmail(cfg: Config, email: string, token: string, name: Option<string>,
                                 providerOk: bool): (r: SendAttempt)
    ensures r.mail == VerificationMailFor(cfg, email, token, name)
    ensures r.delivery == Delivered <==> providerOk
  {
    SendAttempt(VerificationMailFor(cfg, email, token, name), if providerOk then Delivered else Threw)
  }

  /** The token can be read back from the link: it is the text after the link's last
      `=` (which `Split` returns as its last piece, by `SplitLastIsTail`), for every
      token of the generated shape. */
  lemma TokenFromLink(siteLink: Option<string>, token: string)
    requires IsToken(token)
    ensures IsSeparatedTail(VerificationLink(siteLink, token), '=', token)
  {
    TokenHasNoEquals(token);
  }

  lemma TokenHasNoEquals(token: string)
    requires IsToken(token)
    ensures '=' !in token
  {
    forall i | 0 <= i < |token| ensures token[i] != '=' {
      assert IsHexChar(token[i]);
    }
  }
}
