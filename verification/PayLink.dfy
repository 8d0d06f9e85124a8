/**
 Pay links: the fields of a checkout as the parameters of a query string. Address normalisation and the conversions
 between numbers and text are a given environment.
 */
module PayLink {
  import opened Base
  import opened Text
  import opened UrlEncoded

  datatype Mode = Crypto | CryptoOrFiat | Fiat

  /** A JavaScript number: an integer, another finite one with the integer `Math.round` gives, or NaN or an infinity. */
  datatype Number = Whole(n: int) | Fraction(rounded: int) | NotFinite

  /**
   `normalize`: the merchant address, the checksummed EVM address, or else the text itself.
   `show` and `read`: `String(n)` and `Number(text)`.
   */
  datatype Env = Env(normalize: string -> string, show: int -> string, read: string -> Number)

  datatype Fields = Fields(
    price: string, to: seq<string>, chains: seq<string>, tokens: seq<string>, invoiceSeed: Option<string>,
    clientInvoiceId: Option<string>, callback: Option<string>, title: Option<string>, description: Option<string>,
    allowPartial: bool, paymentMode: Mode, displayFiat: Option<string>, displayAmount: Option<string>,
    quoteCountry: Option<string>, quotePaymentMethod: Option<string>, quoteProvider: Option<string>,
    quoteSlippageBps: Option<Number>, lang: Option<string>)

  datatype Decoded = Ok(fields: Fields) | MissingPrice | InvalidPaymentMode

  // ----- Parameter names -----

  datatype Name =
    | Price | To | Chains | Tokens | Seed | ClientInvoiceId | Callback | Title | Description | AllowPartial
    | PaymentMode | PaymentModeAlias | DisplayFiat | DisplayFiatAlias | DisplayAmount | DisplayAmountAlias
    | QuoteCountry | QuoteCountryAlias | QuotePaymentMethod | QuotePaymentMethodAlias | QuoteProvider
    | QuoteProviderAlias | QuoteSlippage | QuoteSlippageAlias | Lang | Locale | Other(text: string)

  type Known = n: Name | !n.Other? witness Price

  type Named = List<Name>

  function Key(n: Name): string {
    match n
    case Price => "price"
    case To => "to"
    case Chains => "chains"
    case Tokens => "tokens"
    case Seed => "invoice_seed"
    case ClientInvoiceId => "client_invoice_id"
    case Callback => "callback"
    case Title => "title"
    case Description => "description"
    case AllowPartial => "allow_partial"
    case PaymentMode => "payment_mode"
    case PaymentModeAlias => "paymentMode"
    case DisplayFiat => "display_fiat"
    case DisplayFiatAlias => "displayFiat"
    case DisplayAmount => "display_amount"
    case DisplayAmountAlias => "displayAmount"
    case QuoteCountry => "quote_country"
    case QuoteCountryAlias => "quoteCountry"
    case QuotePaymentMethod => "quote_payment_method"
    case QuotePaymentMethodAlias => "quotePaymentMethod"
    case QuoteProvider => "quote_provider"
    case QuoteProviderAlias => "quoteProvider"
    case QuoteSlippage => "quote_slippage_bps"
    case QuoteSlippageAlias => "quoteSlippageBps"
    case Lang => "lang"
    case Locale => "locale"
    case Other(text) => text
  }

  /** The names are told apart by length, first and last letter. */
  function NameOf(length: nat, first: char, last: char): Name {
    if length == 2 then To
    else if length == 4 then Lang
    else if length == 5 then (if first == 'p' then Price else Title)
    else if length == 6 then (if first == 'c' then Chains else if first == 't' then Tokens else Locale)
    else if length == 8 then Callback
    else if length == 11 then
      (if first == 'p' then PaymentModeAlias else if last == 'n' then Description else DisplayFiatAlias)
    else if length == 12 then
      (if first == 'i' then Seed else if first == 'p' then PaymentMode else if first == 'd' then DisplayFiat
       else QuoteCountryAlias)
    else if length == 13 then
      (if first == 'a' then AllowPartial else if first == 'd' then DisplayAmountAlias
       else if last == 'y' then QuoteCountry
       else QuoteProviderAlias)
    else if length == 14 then (if first == 'd' then DisplayAmount else QuoteProvider)
    else if length == 16 then QuoteSlippageAlias
    else if length == 17 then ClientInvoiceId
    else if length == 18 then (if last == 'd' then QuotePaymentMethodAlias else QuoteSlippage)
    else QuotePaymentMethod
  }

  function NameFrom(s: string): Name {
    if |s| > 0 && Key(NameOf(|s|, s[0], s[|s| - 1])) == s then NameOf(|s|, s[0], s[|s| - 1]) else Other(s)
  }

  lemma KeyTellsName(n: Known)
    ensures |Key(n)| > 0 && NameOf(|Key(n)|, Key(n)[0], Key(n)[|Key(n)| - 1]) == n
  {
  }

  lemma NameReadsBack(n: Known)
    ensures NameFrom(Key(n)) == n
  {
    KeyTellsName(n);
    var s := Key(n);
    assert NameOf(|s|, s[0], s[|s| - 1]) == n;
  }

  function Keyed(p: Named): Params {
    if |p| == 0 then [] else [(Key(p[0].0), p[0].1)] + Keyed(p[1..])
  }

  function NamesOf(p: Params): Named {
    if |p| == 0 then [] else [(NameFrom(p[0].0), p[0].1)] + NamesOf(p[1..])
  }

  ghost predicate AllKnown(p: Named) {
    forall i :: 0 <= i < |p| ==> !p[i].0.Other?
  }

  lemma {:induction false} NamesReadBack(p: Named)
    requires AllKnown(p)
    ensures NamesOf(Keyed(p)) == p
  {
    if |p| > 0 {
      NameReadsBack(p[0].0);
      NamesReadBack(p[1..]);
      assert Keyed(p)[1..] == Keyed(p[1..]);
      assert p == [p[0]] + p[1..];
    }
  }

  /** `params.get` by text finds what looking up the name finds, for every list of parameters. */
  lemma {:induction false} GetByText(p: Params, n: Known)
    ensures GetParam(p, Key(n)) == GetParam(NamesOf(p), n)
  {
    if |p| > 0 {
      GetByText(p[1..], n);
      NameReadsBack(n);
      assert NamesOf(p)[1..] == NamesOf(p[1..]);
      KeyOfName(p[0].0);
    }
  }

  lemma KeyOfName(s: string)
    ensures Key(NameFrom(s)) == s
  {
  }

  // ----- Decoding -----

  function NotEmpty(items: seq<string>): seq<string> {
    if |items| == 0 then []
    else (if Trim(items[0]) == "" then [] else [Trim(items[0])]) + NotEmpty(items[1..])
  }

  function SplitList(value: Option<string>): seq<string> {
    NotEmpty(Split(value.GetOr(""), ','))
  }

  function Map(f: string -> string, items: seq<string>): (r: seq<string>)
    ensures |r| == |items| && forall i :: 0 <= i < |r| ==> r[i] == f(items[i])
  {
    seq(|items|, i requires 0 <= i < |items| => f(items[i]))
  }

  /** The parameter's trimmed text, if there is any. */
  function OptionalParam(p: Named, n: Name): (r: Option<string>)
    ensures r.Some? ==> r.value != "" && Trimmed(r.value)
  {
    var v := GetParam(p, n);
    if v.None? then None
    else
      TrimShape(v.value);
      if Trim(v.value) == "" then None else Some(Trim(v.value))
  }

  function Either(p: Named, n: Name, alias: Name): Option<string> {
    OptionalParam(p, n).Or(OptionalParam(p, alias))
  }

  function ParseBoolean(value: Option<string>): bool {
    value.Some? && (value.value == "1" || Lower(value.value) == "true" || Lower(value.value) == "yes")
  }

  function ParseMode(value: Option<string>): Option<Mode> {
    if value.None? || value.value == "crypto" then Some(Crypto)
    else if value.value == "crypto_or_fiat" then Some(CryptoOrFiat)
    else if value.value == "fiat" then Some(Fiat)
    else None
  }

  function Cased(value: Option<string>, change: string -> string): Option<string> {
    if value.None? then None else Some(change(value.value))
  }

  function Decode(env: Env, p: Named): Decoded {
    var mode := ParseMode(Either(p, PaymentMode, PaymentModeAlias));
    var price := OptionalParam(p, Price);
    if mode.None? then InvalidPaymentMode
    else if price.None? then MissingPrice
    else
      var slippage := Either(p, QuoteSlippage, QuoteSlippageAlias);
      Ok(Fields(
           price.value,
           Map(env.normalize, SplitList(GetParam(p, To))),
           SplitList(Some(GetParam(p, Chains).GetOr("11155111"))),
           Map(Upper, SplitList(Some(GetParam(p, Tokens).GetOr("USDC")))),
           OptionalParam(p, Seed), OptionalParam(p, ClientInvoiceId), OptionalParam(p, Callback),
           OptionalParam(p, Title), OptionalParam(p, Description), ParseBoolean(GetParam(p, AllowPartial)), mode.value,
           Cased(Either(p, DisplayFiat, DisplayFiatAlias), Upper), Either(p, DisplayAmount, DisplayAmountAlias),
           Cased(Either(p, QuoteCountry, QuoteCountryAlias), Lower),
           Cased(Either(p, QuotePaymentMethod, QuotePaymentMethodAlias), Lower),
           Cased(Either(p, QuoteProvider, QuoteProviderAlias), Lower),
           if slippage.None? then None else Some(env.read(slippage.value)), Either(p, Lang, Locale)))
  }

  /** From text, with or without a leading question mark. */
  function DecodePayLink(env: Env, text: string): Decoded {
    Decode(env, NamesOf(Parse(if |text| > 0 && text[0] == '?' then text[1..] else text)))
  }

  // ----- Encoding -----

  /** A field is written when it is there and not empty. */
  function Given(value: Option<string>): Option<string> {
    if value == Some("") then None else value
  }

  function ModeText(m: Mode): Option<string> {
    match m
    case Crypto => None
    case CryptoOrFiat => Some("crypto_or_fiat")
    case Fiat => Some("fiat")
  }

  function SlippageText(env: Env, n: Option<Number>): Option<string> {
    match n
    case Some(Whole(v)) => Some(env.show(v))
    case Some(Fraction(v)) => Some(env.show(v))
    case _ => None
  }

  function SetIf(p: Named, n: Name, value: Option<string>): Named {
    if value.Some? then SetParam(p, n, value.value) else p
  }

  function EncodeLists(f: Fields): Named {
    SetIf(SetIf(SetIf(SetIf([], Price, Some(f.price)), To, Some(Join(f.to, ','))), Chains, Some(Join(f.chains, ','))),
          Tokens, Some(Join(f.tokens, ',')))
  }

  function EncodeTexts(p: Named, f: Fields): Named {
    SetIf(SetIf(SetIf(SetIf(p, ClientInvoiceId, Given(f.clientInvoiceId)), Callback, Given(f.callback)),
                Title, Given(f.title)), Description, Given(f.description))
  }

  function EncodeModes(p: Named, f: Fields): Named {
    SetIf(SetIf(SetIf(SetIf(p, AllowPartial, Some(if f.allowPartial then "1" else "0")),
                      PaymentMode, ModeText(f.paymentMode)),
                DisplayFiat, Given(f.displayFiat)), DisplayAmount, Given(f.displayAmount))
  }

  function EncodeQuote(env: Env, p: Named, f: Fields): Named {
    SetIf(SetIf(SetIf(SetIf(p, QuoteCountry, Given(f.quoteCountry)), QuotePaymentMethod, Given(f.quotePaymentMethod)),
                QuoteProvider, Given(f.quoteProvider)), QuoteSlippage, SlippageText(env, f.quoteSlippageBps))
  }

  function Encode(env: Env, f: Fields): Named {
    SetIf(EncodeQuote(env, EncodeModes(EncodeTexts(EncodeLists(f), f), f), f), Lang, Given(f.lang))
  }

  method SetGiven(p: Named, n: Name, value: Option<string>) returns (q: Named)
    ensures q == SetIf(p, n, Given(value))
  {
    q := p;
    if value.Some? && value.value != "" { q := SetParam(p, n, value.value); }
  }

  method EncodePayLink(env: Env, f: Fields) returns (text: string)
    ensures text == Print(Keyed(Encode(env, f)))
  {
    var params: Named := [];
    params := SetParam(params, Price, f.price);
    params := SetParam(params, To, Join(f.to, ','));
    params := SetParam(params, Chains, Join(f.chains, ','));
    params := SetParam(params, Tokens, Join(f.tokens, ','));
    assert params == EncodeLists(f);
    params := SetGiven(params, ClientInvoiceId, f.clientInvoiceId);
    params := SetGiven(params, Callback, f.callback);
    params := SetGiven(params, Title, f.title);
    params := SetGiven(params, Description, f.description);
    assert params == EncodeTexts(EncodeLists(f), f);
    params := SetParam(params, AllowPartial, if f.allowPartial then "1" else "0");
    if f.paymentMode != Crypto { params := SetParam(params, PaymentMode, ModeText(f.paymentMode).value); }
    params := SetGiven(params, DisplayFiat, f.displayFiat);
    params := SetGiven(params, DisplayAmount, f.displayAmount);
    assert params == EncodeModes(EncodeTexts(EncodeLists(f), f), f);
    params := SetGiven(params, QuoteCountry, f.quoteCountry);
    params := SetGiven(params, QuotePaymentMethod, f.quotePaymentMethod);
    params := SetGiven(params, QuoteProvider, f.quoteProvider);
    var slippage := SlippageText(env, f.quoteSlippageBps);
    if slippage.Some? { params := SetParam(params, QuoteSlippage, slippage.value); }
    params := SetGiven(params, Lang, f.lang);
    text := Print(Keyed(params));
  }

  // ----- What was written is what is looked up -----

  function ListsOf(f: Fields, n: Name): Option<string> {
    match n
    case Price => Some(f.price)
    case To => Some(Join(f.to, ','))
    case Chains => Some(Join(f.chains, ','))
    case Tokens => Some(Join(f.tokens, ','))
    case _ => None
  }

  function TextsOf(f: Fields, n: Name): Option<string> {
    match n
    case ClientInvoiceId => Given(f.clientInvoiceId)
    case Callback => Given(f.callback)
    case Title => Given(f.title)
    case Description => Given(f.description)
    case _ => None
  }

  function ModesOf(f: Fields, n: Name): Option<string> {
    match n
    case AllowPartial => Some(if f.allowPartial then "1" else "0")
    case PaymentMode => ModeText(f.paymentMode)
    case DisplayFiat => Given(f.displayFiat)
    case DisplayAmount => Given(f.displayAmount)
    case _ => None
  }

  function QuoteOf(env: Env, f: Fields, n: Name): Option<string> {
    match n
    case QuoteCountry => Given(f.quoteCountry)
    case QuotePaymentMethod => Given(f.quotePaymentMethod)
    case QuoteProvider => Given(f.quoteProvider)
    case QuoteSlippage => SlippageText(env, f.quoteSlippageBps)
    case _ => None
  }

  function Layered(env: Env, f: Fields, n: Name): Option<string> {
    if n == Lang then Given(f.lang) else QuoteOf(env, f, n).Or(ModesOf(f, n).Or(TextsOf(f, n).Or(ListsOf(f, n))))
  }

  /** The value that encoding writes under each name. */
  function Written(env: Env, f: Fields, n: Name): Option<string> {
    match n
    case Price => Some(f.price)
    case To => Some(Join(f.to, ','))
    case Chains => Some(Join(f.chains, ','))
    case Tokens => Some(Join(f.tokens, ','))
    case ClientInvoiceId => Given(f.clientInvoiceId)
    case Callback => Given(f.callback)
    case Title => Given(f.title)
    case Description => Given(f.description)
    case AllowPartial => Some(if f.allowPartial then "1" else "0")
    case PaymentMode => ModeText(f.paymentMode)
    case DisplayFiat => Given(f.displayFiat)
    case DisplayAmount => Given(f.displayAmount)
    case QuoteCountry => Given(f.quoteCountry)
    case QuotePaymentMethod => Given(f.quotePaymentMethod)
    case QuoteProvider => Given(f.quoteProvider)
    case QuoteSlippage => SlippageText(env, f.quoteSlippageBps)
    case Lang => Given(f.lang)
    case _ => None
  }

  lemma LayersMeet(env: Env, f: Fields, n: Name)
    ensures Layered(env, f, n) == Written(env, f, n)
  {
  }

  lemma LookAfterSetIf(p: Named, n: Name, value: Option<string>, m: Name)
    ensures GetParam(SetIf(p, n, value), m) == if m == n && value.Some? then value else GetParam(p, m)
  {
    if value.Some? {
      GetAfterSet(p, n, value.value, m);
    }
  }

  lemma LookFour(p: Named, a: Name, va: Option<string>, b: Name, vb: Option<string>, c: Name, vc: Option<string>,
                 d: Name, vd: Option<string>, m: Name)
    requires a != b && a != c && a != d && b != c && b != d && c != d
    ensures GetParam(SetIf(SetIf(SetIf(SetIf(p, a, va), b, vb), c, vc), d, vd), m) ==
            (if m == a then va.Or(GetParam(p, m)) else if m == b then vb.Or(GetParam(p, m))
             else if m == c then vc.Or(GetParam(p, m))
             else if m == d then vd.Or(GetParam(p, m)) else GetParam(p, m))
  {
    LookAfterSetIf(p, a, va, m);
    LookAfterSetIf(SetIf(p, a, va), b, vb, m);
    LookAfterSetIf(SetIf(SetIf(p, a, va), b, vb), c, vc, m);
    LookAfterSetIf(SetIf(SetIf(SetIf(p, a, va), b, vb), c, vc), d, vd, m);
  }

  lemma LooksInLists(f: Fields, m: Name)
    ensures GetParam(EncodeLists(f), m) == ListsOf(f, m)
  {
    LookFour([], Price, Some(f.price), To, Some(Join(f.to, ',')), Chains, Some(Join(f.chains, ',')),
             Tokens, Some(Join(f.tokens, ',')), m);
  }

  lemma LooksInTexts(p: Named, f: Fields, m: Name)
    ensures GetParam(EncodeTexts(p, f), m) == TextsOf(f, m).Or(GetParam(p, m))
  {
    LookFour(p, ClientInvoiceId, Given(f.clientInvoiceId), Callback, Given(f.callback), Title, Given(f.title),
             Description, Given(f.description), m);
  }

  lemma LooksInModes(p: Named, f: Fields, m: Name)
    ensures GetParam(EncodeModes(p, f), m) == ModesOf(f, m).Or(GetParam(p, m))
  {
    LookFour(p, AllowPartial, Some(if f.allowPartial then "1" else "0"), PaymentMode, ModeText(f.paymentMode),
             DisplayFiat, Given(f.displayFiat), DisplayAmount, Given(f.displayAmount), m);
  }

  lemma LooksInQuote(env: Env, p: Named, f: Fields, m: Name)
    ensures GetParam(EncodeQuote(env, p, f), m) == QuoteOf(env, f, m).Or(GetParam(p, m))
  {
    LookFour(p, QuoteCountry, Given(f.quoteCountry), QuotePaymentMethod, Given(f.quotePaymentMethod),
             QuoteProvider, Given(f.quoteProvider), QuoteSlippage, SlippageText(env, f.quoteSlippageBps), m);
  }

  lemma EncodedLooks(env: Env, f: Fields, m: Name)
    ensures GetParam(Encode(env, f), m) == Written(env, f, m)
  {
    var lists := EncodeLists(f);
    var texts := EncodeTexts(lists, f);
    var modes := EncodeModes(texts, f);
    LooksInLists(f, m);
    LooksInTexts(lists, f, m);
    LooksInModes(texts, f, m);
    LooksInQuote(env, modes, f, m);
    LookAfterSetIf(EncodeQuote(env, modes, f), Lang, Given(f.lang), m);
    LayersMeet(env, f, m);
    assert GetParam(Encode(env, f), m) == Layered(env, f, m);
  }

  // ----- Round trip -----

  /** An entry of a comma list. */
  predicate Item(s: string) {
    s != "" && Trimmed(s) && Free(s, ',')
  }

  ghost predicate AllItems(items: seq<string>) {
    forall i :: 0 <= i < |items| ==> Item(items[i])
  }

  /** What is assumed of the environment: normalising a list entry gives one, and for good, and integers read back. */
  ghost predicate Sane(env: Env) {
    && (forall x :: Item(x) ==> Item(env.normalize(x)) && env.normalize(env.normalize(x)) == env.normalize(x))
    && (forall n :: env.read(env.show(n)) == Whole(n) && env.show(n) != "" && Trimmed(env.show(n)))
  }

  lemma {:induction false} NotEmptyAreItems(pieces: seq<string>)
    requires forall i :: 0 <= i < |pieces| ==> Free(pieces[i], ',')
    ensures AllItems(NotEmpty(pieces))
  {
    if |pieces| > 0 {
      NotEmptyAreItems(pieces[1..]);
      TrimShape(pieces[0]);
    }
  }

  lemma ListHasItems(value: Option<string>)
    ensures AllItems(SplitList(value))
  {
    NotEmptyAreItems(Split(value.GetOr(""), ','));
  }

  lemma {:induction false} ItemsStay(items: seq<string>)
    requires AllItems(items)
    ensures NotEmpty(items) == items
  {
    if |items| > 0 {
      ItemsStay(items[1..]);
      TrimmedStays(items[0]);
      assert items == [items[0]] + items[1..];
    }
  }

  lemma ListReadsBack(items: seq<string>)
    requires AllItems(items)
    ensures SplitList(Some(Join(items, ','))) == items
  {
    if |items| == 0 {
      assert Split("", ',') == [""] && Trim("") == "";
      assert [""][1..] == [];
    } else {
      SplitJoin(items, ',');
      ItemsStay(items);
    }
  }

  /** Changing the case of letters keeps text trimmed and free of commas, and once is enough. */
  lemma CaseKeeps(s: string)
    ensures (Item(s) ==> Item(Upper(s))) && Upper(Upper(s)) == Upper(s)
    ensures TextValue(Some(s)) ==> TextValue(Some(Upper(s)))
    ensures Lower(Lower(s)) == Lower(s) && (TextValue(Some(s)) ==> TextValue(Some(Lower(s))))
  {
    assert forall i :: 0 <= i < |s| ==> IsSpace(Upper(s)[i]) == IsSpace(s[i]) && (Upper(s)[i] == ',') == (s[i] == ',');
    assert forall i :: 0 <= i < |s| ==> IsSpace(Lower(s)[i]) == IsSpace(s[i]);
  }

  /** An optional text that decoding can give. */
  predicate TextValue(o: Option<string>) {
    o.Some? ==> o.value != "" && Trimmed(o.value)
  }

  predicate Fixed(o: Option<string>, change: string -> string) {
    TextValue(o) && (o.Some? ==> change(o.value) == o.value)
  }

  ghost predicate TidyLists(env: Env, f: Fields) {
    && TextValue(Some(f.price)) && AllItems(f.to) && AllItems(f.chains) && AllItems(f.tokens)
    && Map(env.normalize, f.to) == f.to && Map(Upper, f.tokens) == f.tokens
  }

  predicate TidyTexts(f: Fields) {
    && TextValue(f.clientInvoiceId) && TextValue(f.callback) && TextValue(f.title) && TextValue(f.description)
    && Fixed(f.displayFiat, Upper) && TextValue(f.displayAmount) && Fixed(f.quoteCountry, Lower)
    && Fixed(f.quotePaymentMethod, Lower) && Fixed(f.quoteProvider, Lower) && TextValue(f.lang)
  }

  lemma CasedIsFixed(o: Option<string>)
    requires TextValue(o)
    ensures Fixed(Cased(o, Upper), Upper) && Fixed(Cased(o, Lower), Lower)
  {
    if o.Some? { CaseKeeps(o.value); }
  }

  lemma DecodedListsAreTidy(env: Env, p: Named)
    requires Sane(env) && Decode(env, p).Ok?
    ensures TidyLists(env, Decode(env, p).fields)
  {
    var f := Decode(env, p).fields;
    ListHasItems(GetParam(p, To));
    ListHasItems(Some(GetParam(p, Chains).GetOr("11155111")));
    ListHasItems(Some(GetParam(p, Tokens).GetOr("USDC")));
    var given := SplitList(Some(GetParam(p, Tokens).GetOr("USDC")));
    forall i | 0 <= i < |given| ensures Item(f.tokens[i]) && Upper(f.tokens[i]) == f.tokens[i] {
      assert Item(given[i]);
      CaseKeeps(given[i]);
    }
    var addresses := SplitList(GetParam(p, To));
    assert forall i :: 0 <= i < |addresses| ==> Item(addresses[i]);
  }

  lemma DecodedTextsAreTidy(env: Env, p: Named)
    requires Decode(env, p).Ok?
    ensures TidyTexts(Decode(env, p).fields)
  {
    CasedIsFixed(Either(p, DisplayFiat, DisplayFiatAlias));
    CasedIsFixed(Either(p, QuoteCountry, QuoteCountryAlias));
    CasedIsFixed(Either(p, QuotePaymentMethod, QuotePaymentMethodAlias));
    CasedIsFixed(Either(p, QuoteProvider, QuoteProviderAlias));
  }

  /** These parameters hold what encoding writes. */
  ghost predicate Holds(env: Env, f: Fields, q: Named) {
    forall m: Name :: GetParam(q, m) == Written(env, f, m)
  }

  lemma EncodedHolds(env: Env, f: Fields)
    ensures Holds(env, f, Encode(env, f))
  {
    forall m: Name ensures GetParam(Encode(env, f), m) == Written(env, f, m) { EncodedLooks(env, f, m); }
  }

  lemma OptionReturns(env: Env, f: Fields, q: Named, n: Name)
    requires Holds(env, f, q) && TextValue(Written(env, f, n))
    ensures OptionalParam(q, n) == Written(env, f, n)
  {
    assert GetParam(q, n) == Written(env, f, n);
    if Written(env, f, n).Some? { TrimmedStays(Written(env, f, n).value); }
  }

  lemma EitherReturns(env: Env, f: Fields, q: Named, n: Name, alias: Name)
    requires Holds(env, f, q) && TextValue(Written(env, f, n)) && Written(env, f, alias) == None
    ensures Either(q, n, alias) == Written(env, f, n)
  {
    OptionReturns(env, f, q, n);
    OptionReturns(env, f, q, alias);
  }

  /** The slippage that comes back: rounded, or dropped if not finite. */
  function Rounded(n: Option<Number>): Option<Number> {
    match n
    case Some(Whole(v)) => n
    case Some(Fraction(v)) => Some(Whole(v))
    case _ => None
  }

  lemma ListReturns(env: Env, f: Fields, q: Named, n: Name, items: seq<string>, default: string)
    requires Holds(env, f, q) && Written(env, f, n) == Some(Join(items, ',')) && AllItems(items)
    ensures SplitList(GetParam(q, n)) == items && SplitList(Some(GetParam(q, n).GetOr(default))) == items
  {
    assert GetParam(q, n) == Some(Join(items, ','));
    ListReadsBack(items);
  }

  lemma ListsReturn(env: Env, f: Fields, q: Named)
    requires TidyLists(env, f) && Holds(env, f, q)
    ensures (OptionalParam(q, Price), Map(env.normalize, SplitList(GetParam(q, To))),
             SplitList(Some(GetParam(q, Chains).GetOr("11155111"))),
             Map(Upper, SplitList(Some(GetParam(q, Tokens).GetOr("USDC"))))) ==
            (Some(f.price), f.to, f.chains, f.tokens)
  {
    OptionReturns(env, f, q, Price);
    ListReturns(env, f, q, To, f.to, "");
    ListReturns(env, f, q, Chains, f.chains, "11155111");
    ListReturns(env, f, q, Tokens, f.tokens, "USDC");
  }

  lemma TextsReturn(env: Env, f: Fields, q: Named)
    requires TidyTexts(f) && Holds(env, f, q)
    ensures (OptionalParam(q, ClientInvoiceId), OptionalParam(q, Callback), OptionalParam(q, Title),
             OptionalParam(q, Description), OptionalParam(q, Seed)) ==
            (f.clientInvoiceId, f.callback, f.title, f.description, None)
  {
    OptionReturns(env, f, q, ClientInvoiceId);
    OptionReturns(env, f, q, Callback);
    OptionReturns(env, f, q, Title);
    OptionReturns(env, f, q, Description);
    OptionReturns(env, f, q, Seed);
  }

  lemma ModesReturn(env: Env, f: Fields, q: Named)
    requires Holds(env, f, q)
    ensures ParseBoolean(GetParam(q, AllowPartial)) == f.allowPartial
    ensures ParseMode(Either(q, PaymentMode, PaymentModeAlias)) == Some(f.paymentMode)
  {
    EitherReturns(env, f, q, PaymentMode, PaymentModeAlias);
    assert Lower("0")[0] == '0';
    assert !ParseBoolean(Some("0"));
  }

  lemma CasedReturns(env: Env, f: Fields, q: Named, n: Name, alias: Name, o: Option<string>, change: string -> string)
    requires Holds(env, f, q) && Written(env, f, n) == Given(o) && Written(env, f, alias) == None && Fixed(o, change)
    ensures Cased(Either(q, n, alias), change) == o
  {
    EitherReturns(env, f, q, n, alias);
  }

  lemma FiatAndCountryReturn(env: Env, f: Fields, q: Named)
    requires TidyTexts(f) && Holds(env, f, q)
    ensures (Cased(Either(q, DisplayFiat, DisplayFiatAlias), Upper),
             Cased(Either(q, QuoteCountry, QuoteCountryAlias), Lower)) == (f.displayFiat, f.quoteCountry)
  {
    CasedReturns(env, f, q, DisplayFiat, DisplayFiatAlias, f.displayFiat, Upper);
    CasedReturns(env, f, q, QuoteCountry, QuoteCountryAlias, f.quoteCountry, Lower);
  }

  lemma MethodAndProviderReturn(env: Env, f: Fields, q: Named)
    requires TidyTexts(f) && Holds(env, f, q)
    ensures (Cased(Either(q, QuotePaymentMethod, QuotePaymentMethodAlias), Lower),
             Cased(Either(q, QuoteProvider, QuoteProviderAlias), Lower)) == (f.quotePaymentMethod, f.quoteProvider)
  {
    CasedReturns(env, f, q, QuotePaymentMethod, QuotePaymentMethodAlias, f.quotePaymentMethod, Lower);
    CasedReturns(env, f, q, QuoteProvider, QuoteProviderAlias, f.quoteProvider, Lower);
  }

  lemma AmountAndLangReturn(env: Env, f: Fields, q: Named)
    requires TidyTexts(f) && Holds(env, f, q)
    ensures Either(q, DisplayAmount, DisplayAmountAlias) == f.displayAmount
    ensures Either(q, Lang, Locale) == f.lang
  {
    EitherReturns(env, f, q, DisplayAmount, DisplayAmountAlias);
    EitherReturns(env, f, q, Lang, Locale);
  }

  lemma SlippageReturns(env: Env, f: Fields, q: Named)
    requires Sane(env) && Holds(env, f, q)
    ensures var back := Either(q, QuoteSlippage, QuoteSlippageAlias);
            (if back.None? then None else Some(env.read(back.value))) == Rounded(f.quoteSlippageBps)
  {
    EitherReturns(env, f, q, QuoteSlippage, QuoteSlippageAlias);
  }

  /** Decoding what was encoded gives the fields back, without the seed and with the slippage rounded. */
  lemma EncodedDecodes(env: Env, f: Fields, q: Named)
    requires Sane(env) && TidyLists(env, f) && TidyTexts(f) && Holds(env, f, q)
    ensures Decode(env, q) == Ok(f.(invoiceSeed := None, quoteSlippageBps := Rounded(f.quoteSlippageBps)))
  {
    ListsReturn(env, f, q);
    TextsReturn(env, f, q);
    ModesReturn(env, f, q);
    FiatAndCountryReturn(env, f, q);
    MethodAndProviderReturn(env, f, q);
    AmountAndLangReturn(env, f, q);
    SlippageReturns(env, f, q);
  }

  lemma {:induction false} SetKnown(p: Named, n: Known, value: string)
    requires AllKnown(p)
    ensures AllKnown(SetParam(p, n, value)) && AllKnown(Without(p, n))
  {
    if |p| > 0 {
      SetKnown(p[1..], n, value);
    }
  }

  lemma SetIfKnown(p: Named, n: Known, value: Option<string>)
    requires AllKnown(p)
    ensures AllKnown(SetIf(p, n, value))
  {
    if value.Some? { SetKnown(p, n, value.value); }
  }

  lemma FourKnown(p: Named, a: Known, va: Option<string>, b: Known, vb: Option<string>, c: Known, vc: Option<string>,
                  d: Known, vd: Option<string>)
    requires AllKnown(p)
    ensures AllKnown(SetIf(SetIf(SetIf(SetIf(p, a, va), b, vb), c, vc), d, vd))
  {
    SetIfKnown(p, a, va);
    SetIfKnown(SetIf(p, a, va), b, vb);
    SetIfKnown(SetIf(SetIf(p, a, va), b, vb), c, vc);
    SetIfKnown(SetIf(SetIf(SetIf(p, a, va), b, vb), c, vc), d, vd);
  }

  lemma EncodedNamesAreKnown(env: Env, f: Fields)
    ensures AllKnown(Encode(env, f))
  {
    var lists := EncodeLists(f);
    var texts := EncodeTexts(lists, f);
    var modes := EncodeModes(texts, f);
    FourKnown([], Price, Some(f.price), To, Some(Join(f.to, ',')), Chains, Some(Join(f.chains, ',')),
              Tokens, Some(Join(f.tokens, ',')));
    FourKnown(lists, ClientInvoiceId, Given(f.clientInvoiceId), Callback, Given(f.callback), Title, Given(f.title),
              Description, Given(f.description));
    FourKnown(texts, AllowPartial, Some(if f.allowPartial then "1" else "0"), PaymentMode, ModeText(f.paymentMode),
              DisplayFiat, Given(f.displayFiat), DisplayAmount, Given(f.displayAmount));
    FourKnown(modes, QuoteCountry, Given(f.quoteCountry), QuotePaymentMethod, Given(f.quotePaymentMethod),
              QuoteProvider, Given(f.quoteProvider), QuoteSlippage, SlippageText(env, f.quoteSlippageBps));
    SetIfKnown(EncodeQuote(env, modes, f), Lang, Given(f.lang));
  }

  lemma KnownReadsBack(env: Env, q: Named)
    requires AllKnown(q)
    ensures DecodePayLink(env, Print(Keyed(q))) == Decode(env, q)
  {
    NamesReadBack(q);
    TextReadsBack(Keyed(q));
  }

  /**
   For all fields that decoding any parameters can give, the link encoded from them decodes to the same fields without
   the seed, exactly if the slippage is absent or an integer.
   */
  lemma LinkReadsBackIff(env: Env, p: Params, f: Fields)
    requires Sane(env) && Decode(env, NamesOf(p)) == Ok(f)
    ensures DecodePayLink(env, Print(Keyed(Encode(env, f)))) == Ok(f.(invoiceSeed := None)) <==>
            f.quoteSlippageBps.None? || f.quoteSlippageBps.value.Whole?
  {
    var q := Encode(env, f);
    DecodedListsAreTidy(env, NamesOf(p));
    DecodedTextsAreTidy(env, NamesOf(p));
    EncodedHolds(env, f);
    EncodedNamesAreKnown(env, f);
    KnownReadsBack(env, q);
    EncodedDecodes(env, f, q);
  }

  lemma DefaultItem(s: string)
    requires s == "11155111" || s == "USDC"
    ensures SplitList(Some(s)) == [s]
  {
    assert Item(s);
    ListReadsBack([s]);
  }

  lemma DefaultToken(s: string)
    requires s == "USDC"
    ensures Upper(s) == s
  {
  }

  /** A link that names no chains, tokens, mode or partial payment asks for one full payment of USDC on Sepolia. */
  lemma Defaults(env: Env, p: Named, f: Fields)
    requires Decode(env, p) == Ok(f)
    requires GetParam(p, Chains) == GetParam(p, Tokens) == GetParam(p, AllowPartial) == None
    requires GetParam(p, PaymentMode) == GetParam(p, PaymentModeAlias) == None
    ensures f.chains == ["11155111"] && f.tokens == ["USDC"] && !f.allowPartial && f.paymentMode == Crypto
  {
    DefaultItem("11155111");
    DefaultItem("USDC");
    DefaultToken("USDC");
  }

  // ----- Parameters by their text -----

  /** The trimmed text of the first parameter of this name, if it is not blank. */
  function Said(p: Params, key: string): Option<string> {
    var v := GetParam(p, key);
    if v.None? || Trim(v.value) == "" then None else Some(Trim(v.value))
  }

  /** The alias counts only where the name itself says nothing. */
  function SaidOr(p: Params, key: string, alias: string): Option<string> {
    if Said(p, key).Some? then Said(p, key) else Said(p, alias)
  }

  lemma SaidByName(p: Params, n: Known)
    ensures OptionalParam(NamesOf(p), n) == Said(p, Key(n)) && GetParam(NamesOf(p), n) == GetParam(p, Key(n))
  {
    GetByText(p, n);
  }

  lemma EitherByName(p: Params, n: Known, alias: Known)
    ensures Either(NamesOf(p), n, alias) == SaidOr(p, Key(n), Key(alias))
  {
    SaidByName(p, n);
    SaidByName(p, alias);
  }

  predicate IsMode(text: Option<string>, mode: Mode) {
    match mode
    case Crypto => text == None || text == Some("crypto")
    case CryptoOrFiat => text == Some("crypto_or_fiat")
    case Fiat => text == Some("fiat")
  }

  /** A link is refused for its mode if that is none of the three, and else for its price if there is none. */
  lemma RefusedByText(env: Env, p: Params)
    ensures var (mode, decoded) := (SaidOr(p, Key(PaymentMode), Key(PaymentModeAlias)), Decode(env, NamesOf(p)));
            && (decoded.InvalidPaymentMode? <==> !exists m :: IsMode(mode, m))
            && (decoded.MissingPrice? <==> (exists m :: IsMode(mode, m)) && Said(p, Key(Price)).None?)
            && (decoded.Ok? ==>
                  Said(p, Key(Price)) == Some(decoded.fields.price) && IsMode(mode, decoded.fields.paymentMode))
  {
    EitherByName(p, PaymentMode, PaymentModeAlias);
    SaidByName(p, Price);
    ModeByText(SaidOr(p, Key(PaymentMode), Key(PaymentModeAlias)));
  }

  lemma ModeByText(text: Option<string>)
    ensures ParseMode(text).None? <==> !exists m :: IsMode(text, m)
    ensures ParseMode(text).Some? ==> IsMode(text, ParseMode(text).value)
  {
    if ParseMode(text).None? {
      assert !IsMode(text, Crypto) && !IsMode(text, CryptoOrFiat) && !IsMode(text, Fiat);
    } else {
      assert IsMode(text, ParseMode(text).value);
    }
  }

  /** Partial payment is allowed by 1, and by true and yes in any case. */
  predicate Affirms(text: Option<string>) {
    text == Some("1") || (text.Some? && Lower(text.value) in {"true", "yes"})
  }

  lemma AffirmsByText(text: Option<string>)
    ensures ParseBoolean(text) <==> Affirms(text)
  {
  }

  /** Which parameters, by their texts, the fields of a decoded link come from: aliases count only as a fallback. */
  lemma TextsByText(env: Env, p: Params, f: Fields)
    requires Decode(env, NamesOf(p)) == Ok(f)
    ensures f.invoiceSeed == Said(p, Key(Seed)) && f.clientInvoiceId == Said(p, Key(ClientInvoiceId))
    ensures f.callback == Said(p, Key(Callback)) && f.title == Said(p, Key(Title))
    ensures f.description == Said(p, Key(Description))
    ensures f.allowPartial <==> Affirms(GetParam(p, Key(AllowPartial)))
    ensures f.displayAmount == SaidOr(p, Key(DisplayAmount), Key(DisplayAmountAlias))
    ensures f.lang == SaidOr(p, Key(Lang), Key(Locale))
  {
    SaidByName(p, Seed);
    SaidByName(p, ClientInvoiceId);
    SaidByName(p, Callback);
    SaidByName(p, Title);
    SaidByName(p, Description);
    SaidByName(p, AllowPartial);
    AffirmsByText(GetParam(p, Key(AllowPartial)));
    EitherByName(p, DisplayAmount, DisplayAmountAlias);
    EitherByName(p, Lang, Locale);
  }

  /** The same for the fields whose case is changed, the slippage and the lists. */
  lemma ChangedByText(env: Env, p: Params, f: Fields)
    requires Decode(env, NamesOf(p)) == Ok(f)
    ensures f.displayFiat == Cased(SaidOr(p, Key(DisplayFiat), Key(DisplayFiatAlias)), Upper)
    ensures f.quoteCountry == Cased(SaidOr(p, Key(QuoteCountry), Key(QuoteCountryAlias)), Lower)
    ensures f.quotePaymentMethod == Cased(SaidOr(p, Key(QuotePaymentMethod), Key(QuotePaymentMethodAlias)), Lower)
    ensures f.quoteProvider == Cased(SaidOr(p, Key(QuoteProvider), Key(QuoteProviderAlias)), Lower)
    ensures var slippage := SaidOr(p, Key(QuoteSlippage), Key(QuoteSlippageAlias));
            if slippage.None? then f.quoteSlippageBps.None? else f.quoteSlippageBps == Some(env.read(slippage.value))
    ensures f.to == Map(env.normalize, SplitList(GetParam(p, Key(To))))
    ensures f.chains == SplitList(Some(GetParam(p, Key(Chains)).GetOr("11155111")))
    ensures f.tokens == Map(Upper, SplitList(Some(GetParam(p, Key(Tokens)).GetOr("USDC"))))
  {
    EitherByName(p, DisplayFiat, DisplayFiatAlias);
    EitherByName(p, QuoteCountry, QuoteCountryAlias);
    EitherByName(p, QuotePaymentMethod, QuotePaymentMethodAlias);
    EitherByName(p, QuoteProvider, QuoteProviderAlias);
    EitherByName(p, QuoteSlippage, QuoteSlippageAlias);
    SaidByName(p, To);
    SaidByName(p, Chains);
    SaidByName(p, Tokens);
  }

  /** The texts of the names. */
  lemma TextsOfNames()
    ensures Key(Price) == "price" && Key(To) == "to" && Key(Chains) == "chains" && Key(Tokens) == "tokens"
    ensures Key(Seed) == "invoice_seed" && Key(ClientInvoiceId) == "client_invoice_id" && Key(Callback) == "callback"
    ensures Key(Title) == "title" && Key(Description) == "description" && Key(AllowPartial) == "allow_partial"
    ensures Key(Lang) == "lang" && Key(Locale) == "locale"
  {
  }

  lemma TextsOfQuoteNames()
    ensures Key(QuoteCountry) == "quote_country" && Key(QuoteCountryAlias) == "quoteCountry"
    ensures Key(QuotePaymentMethod) == "quote_payment_method" && Key(QuotePaymentMethodAlias) == "quotePaymentMethod"
    ensures Key(QuoteProvider) == "quote_provider" && Key(QuoteProviderAlias) == "quoteProvider"
    ensures Key(QuoteSlippage) == "quote_slippage_bps" && Key(QuoteSlippageAlias) == "quoteSlippageBps"
  {
  }

  lemma TextsOfModeNames()
    ensures Key(PaymentMode) == "payment_mode" && Key(PaymentModeAlias) == "paymentMode"
    ensures Key(DisplayFiat) == "display_fiat" && Key(DisplayFiatAlias) == "displayFiat"
    ensures Key(DisplayAmount) == "display_amount" && Key(DisplayAmountAlias) == "displayAmount"
  {
  }
}
