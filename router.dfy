/**
 * The single-page app: the `hash` state cell and the pathname switch of
 * `App`, the fragment each page writes, and the state cells of the sign
 * and secret pages. The rendered widgets themselves are not modelled.
 */
module Router {
  import opened Wrappers
  import opened Url
  import opened Signing
  import Hex

  /** The five pages. */
  datatype Route = HomeRoute | SignRoute | SignatureRoute | SecretRoute | DocumentRoute

  /** The pathname each page is served under. */
  function RoutePath(route: Route): string {
    match route
    case HomeRoute => "/"
    case SignRoute => "/sign"
    case SignatureRoute => "/signature"
    case SecretRoute => "/secret"
    case DocumentRoute => "/document"
  }

  /** The `switch (url.pathname)`: `None` is the `default: throw`. */
  function RouteOf(pathname: string): (r: Option<Route>)
    ensures r.Some? ==> RoutePath(r.value) == pathname
  {
    if pathname == "/" then Some(HomeRoute)
    else if pathname == "/sign" then Some(SignRoute)
    else if pathname == "/signature" then Some(SignatureRoute)
    else if pathname == "/secret" then Some(SecretRoute)
    else if pathname == "/document" then Some(DocumentRoute)
    else None
  }

  /** Exactly the five page paths select a page, and each selects its own page. */
  lemma RouteTable(pathname: string, route: Route)
    ensures RouteOf(RoutePath(route)) == Some(route)
    ensures RouteOf(pathname).Some? <==> pathname in {"/", "/sign", "/signature", "/secret", "/document"}
  {
  }

  /** The page being shown and the URL it reads its parameters from. */
  datatype Screen = Screen(route: Route, url: Url)

  /**
   * The browser around the app: the page's own URL, which relative links
   * resolve against, and the URL parser for the inputs the model does not
   * compute itself.
   */
  datatype Browser = Browser(base: Url, parseOther: string -> Option<Url>)

  /** The message the catch branch attaches to the home link. */
  const INVALID_MSG := "INVALIDNEOOFFLINELINK"

  /** A link to the home page carrying `msg` as its `msg` parameter. */
  function MessageLink(msg: string): string {
    "#/?msg=" + msg
  }

  /**
   * The body of `App` for the current `hash`: parse `hash.slice(1)` against
   * the page's URL and switch on its pathname. `None` is the catch branch.
   */
  function Dispatch(b: Browser, hash: string): (r: Option<Screen>)
    ensures r.Some? ==> RoutePath(r.value.route) == r.value.url.pathname
    ensures var p := Parse(if hash == "" then "" else hash[1..], b.base, b.parseOther);
      (r.Some? <==> p.Some? && RouteOf(p.value.pathname).Some?)
      && (r.Some? ==> p == Some(r.value.url) && r.value.route == RouteOf(p.value.pathname).value)
  {
    match Parse(if hash == "" then "" else hash[1..], b.base, b.parseOther)
    case None => None
    case Some(url) =>
      match RouteOf(url.pathname)
      case None => None
      case Some(route) => Some(Screen(route, url))
  }

  /** A value that survives being written unescaped into the app's links. */
  predicate IsLinkValue(v: string) {
    IsPlain(v) && '&' !in v && '+' !in v && '#' !in v
  }

  /** Hex digits, the alphabet of signatures, keys and script hashes, are link values. */
  lemma HexIsLinkValue(s: string)
    requires Hex.IsHexString(s)
    ensures IsLinkValue(s)
  {
    forall c | c in s ensures PlainChar(c) && c != '&' && c != '+' && c != '#' {
      var i :| 0 <= i < |s| && s[i] == c;
      assert Hex.IsHexChar(s[i]);
    }
  }

  /** A link of the app's own shape, `path?query`, parses to its path and query. */
  lemma {:induction false} ParsePathLink(path: string, query: string, base: Url, other: string -> Option<Url>)
    requires IsSimplePath(path) && IsPlain(query) && '#' !in query
    ensures IsPlain(path + "?" + query) && (path + "?" + query)[0] != '#'
    ensures Parse(path + "?" + query, base, other) == Some(Url(path, Some(query), None))
  {
    var v := path + "?" + query;
    assert !PathChar('?') && !PathChar('#');
    assert '?' !in path && '#' !in path;
    assert IsPlain(v) by {
      forall c | c in v ensures PlainChar(c) {
        if c in path { assert PathChar(c); }
      }
    }
    assert '#' !in v;
    assert SplitFirst(v, '#') == (v, None);
    assert v[|path|] == '?';
    assert IndexOf(v, '?') == |path|;
    assert v[..|path|] == path && v[|path| + 1..] == query;
    assert SplitFirst(v, '?') == (path, Some(query));
  }

  /** The bare fragment `#/` shows the home page with no message. */
  lemma RootHashShowsHome(b: Browser)
    ensures Dispatch(b, "#/") == Some(Screen(HomeRoute, Url("/", None, None)))
    ensures HomeMessage(Url("/", None, None)).None?
  {
    assert "#/"[1..] == "/";
    assert IsPlain("/") && IsSimplePath("/");
    assert SplitFirst("/", '#') == ("/", None);
    assert SplitFirst("/", '?') == ("/", None);
  }

  /** An empty hash shows the page of the document's own path, without its fragment. */
  lemma EmptyHashShowsBase(b: Browser)
    ensures Dispatch(b, "") == match RouteOf(b.base.pathname)
      case None => None
      case Some(route) => Some(Screen(route, b.base.(fragment := None)))
  {
    assert IsPlain("");
  }

  /**
   * A link of the app's own shape, assigned to `window.location.hash` and
   * read back into `hash`, is routed by its path and keeps its query.
   */
  lemma {:induction false} PathLinkDispatch(b: Browser, path: string, query: string)
    requires IsSimplePath(path) && IsPlain(query) && '#' !in query
    ensures AssignHash(path + "?" + query) == "#" + path + "?" + query
    ensures Dispatch(b, AssignHash(path + "?" + query))
         == if RouteOf(path).None? then None else Some(Screen(RouteOf(path).value, Url(path, Some(query), None)))
  {
    var v := path + "?" + query;
    ParsePathLink(path, query, b.base, b.parseOther);
    AssignPlainHash(v);
    assert ("#" + v)[1..] == v;
    assert "#" + path + "?" + query == "#" + v;
  }

  /** Assigning a hash with its leading '#' is the same as assigning it without. */
  lemma AssignHashDropsMark(v: string)
    requires v == "" || v[0] != '#'
    ensures AssignHash("#" + v) == AssignHash(v)
  {
    assert ("#" + v)[1..] == v;
  }

  lemma MessageLinkHash(msg: string)
    requires IsLinkValue(msg)
    ensures AssignHash("#/?msg=" + msg) == "#/?msg=" + msg
  {
    var v := "/" + "?" + ("msg=" + msg);
    assert "#/?msg=" + msg == "#" + v;
    assert IsPlain(v);
    AssignHashDropsMark(v);
    AssignPlainHash(v);
  }

  lemma MessageLinkParse(b: Browser, msg: string)
    requires IsLinkValue(msg)
    ensures Dispatch(b, "#/?msg=" + msg) == Some(Screen(HomeRoute, Url("/", Some("msg=" + msg), None)))
  {
    var q := "msg=" + msg;
    assert IsPlain(q);
    assert IsSimplePath("/");
    ParsePathLink("/", q, b.base, b.parseOther);
    assert ("#/?msg=" + msg)[1..] == "/" + "?" + q;
  }

  lemma MessageLinkDispatch(b: Browser, msg: string)
    requires IsLinkValue(msg)
    ensures Dispatch(b, AssignHash("#/?msg=" + msg)) == Some(Screen(HomeRoute, Url("/", Some("msg=" + msg), None)))
  {
    MessageLinkHash(msg);
    MessageLinkParse(b, msg);
  }

  lemma {:induction false} MessageLinkQuery(msg: string)
    requires IsLinkValue(msg)
    ensures HomeMessage(Url("/", Some("msg=" + msg), None)) == Some(msg)
  {
    var q := "msg=" + msg;
    assert q == PairText(("msg", msg));
    assert SerializeQuery([("msg", msg)]) == q;
    QueryRoundTrip([("msg", msg)]);
  }

  /** A home link carrying a message shows the home page with exactly that message. */
  lemma MessageLinkLandsHome(b: Browser, msg: string)
    requires IsLinkValue(msg)
    ensures var screen := Dispatch(b, AssignHash(MessageLink(msg)));
      screen.Some? && screen.value.route == HomeRoute && HomeMessage(screen.value.url) == Some(msg)
  {
    MessageLinkDispatch(b, msg);
    MessageLinkQuery(msg);
  }

  /** A word of capital letters, like the app's message codes. */
  predicate IsUpperWord(s: string) {
    forall i :: 0 <= i < |s| ==> 'A' <= s[i] <= 'Z'
  }

  lemma UpperIsLinkValue(s: string)
    requires IsUpperWord(s)
    ensures IsLinkValue(s)
  {
    forall c | c in s ensures PlainChar(c) && c != '&' && c != '+' && c != '#' {
      var i :| 0 <= i < |s| && s[i] == c;
    }
  }

  lemma InvalidMessageIsLinkValue()
    ensures IsLinkValue(INVALID_MSG)
  {
    assert IsUpperWord(INVALID_MSG);
    UpperIsLinkValue(INVALID_MSG);
  }

  /** The recovery link written by the catch branch lands on the home page with its message. */
  lemma InvalidLinkLandsHome(b: Browser)
    ensures var s := Dispatch(b, AssignHash(MessageLink(INVALID_MSG)));
      s.Some? && s.value.route == HomeRoute && HomeMessage(s.value.url) == Some(INVALID_MSG)
  {
    InvalidMessageIsLinkValue();
    MessageLinkLandsHome(b, INVALID_MSG);
  }

  /** PageHome: the `msg` parameter, shown as the input's error text when present. */
  function HomeMessage(url: Url): (r: Option<string>)
    ensures var ps := url.SearchParams();
      r.Some? <==> exists i :: 0 <= i < |ps| && ps[i].0 == "msg"
    ensures var ps := url.SearchParams();
      r.Some? ==> exists i :: 0 <= i < |ps| && ps[i] == ("msg", r.value)
                             && forall j :: 0 <= j < i ==> ps[j].0 != "msg"
  {
    Get(url.SearchParams(), "msg")
  }

  /** PageSignature: the values of its four parameters, null where absent. */
  datatype SignatureView = SignatureView(
    address: Option<string>, scripthash: Option<string>, publickey: Option<string>, signature: Option<string>)

  function SignatureViewOf(url: Url): (v: SignatureView)
    ensures v.address == Get(url.SearchParams(), "address")
    ensures v.scripthash == Get(url.SearchParams(), "scripthash")
    ensures v.publickey == Get(url.SearchParams(), "publickey")
    ensures v.signature == Get(url.SearchParams(), "signature")
  {
    var ps := url.SearchParams();
    SignatureView(Get(ps, "address"), Get(ps, "scripthash"), Get(ps, "publickey"), Get(ps, "signature"))
  }

  /** The query of the result fragment, as the signature page receives it. */
  function SignatureUrl(signature: string, acc: Account): Url {
    Url("/signature", Some(SerializeQuery(SignatureParams(signature, acc))), None)
  }

  lemma SignatureQueryIsPlain(signature: string, acc: Account)
    requires IsLinkValue(signature) && IsLinkValue(acc.address)
    requires IsLinkValue(acc.scriptHash) && IsLinkValue(acc.publicKey)
    ensures var q := SerializeQuery(SignatureParams(signature, acc)); IsPlain(q) && '#' !in q
  {
    ResultNamesPlain();
    SerializeQueryPlain(SignatureParams(signature, acc));
  }

  lemma ResultNamesPlain()
    ensures IsPlain("signature") && IsPlain("address") && IsPlain("scripthash") && IsPlain("publickey")
  {
  }

  /** The signature page's path, its route, and the fragment split at its '?'. */
  lemma SignaturePath(signature: string, acc: Account)
    ensures IsSimplePath("/signature") && RouteOf("/signature") == Some(SignatureRoute)
    ensures SignatureFragment(signature, acc) == "/signature" + "?" + SerializeQuery(SignatureParams(signature, acc))
  {
  }

  lemma SignatureLinkDispatch(b: Browser, signature: string, acc: Account)
    requires IsLinkValue(signature) && IsLinkValue(acc.address)
    requires IsLinkValue(acc.scriptHash) && IsLinkValue(acc.publicKey)
    ensures Dispatch(b, AssignHash(SignatureFragment(signature, acc)))
         == Some(Screen(SignatureRoute, SignatureUrl(signature, acc)))
  {
    var q := SerializeQuery(SignatureParams(signature, acc));
    SignatureQueryIsPlain(signature, acc);
    SignaturePath(signature, acc);
    PathLinkDispatch(b, "/signature", q);
  }

  /** Each of the four names looks up its own value in the result parameters. */
  lemma SignatureParamsGet(signature: string, acc: Account)
    ensures var ps := SignatureParams(signature, acc);
      Get(ps, "signature") == Some(signature) && Get(ps, "address") == Some(acc.address)
      && Get(ps, "scripthash") == Some(acc.scriptHash) && Get(ps, "publickey") == Some(acc.publicKey)
  {
    var ps := SignatureParams(signature, acc);
    var p1, p2, p3 := ps[1..], ps[2..], ps[3..];
    assert p1[1..] == p2 && p2[1..] == p3;
    assert "signature"[0] != "address"[0] && "address"[0] != "scripthash"[0];
    assert "scripthash"[1] != "publickey"[1] && "signature"[0] != "publickey"[0];
    assert "address"[0] != "publickey"[0] && "signature"[0] != "scripthash"[1];
    assert Get(p3, "publickey") == Some(acc.publicKey);
    assert Get(p2, "scripthash") == Some(acc.scriptHash);
    assert Get(p2, "publickey") == Get(p3, "publickey");
    assert Get(p1, "address") == Some(acc.address);
    assert Get(p1, "scripthash") == Get(p2, "scripthash");
    assert Get(p1, "publickey") == Get(p2, "publickey");
    assert Get(ps, "address") == Get(p1, "address");
    assert Get(ps, "scripthash") == Get(p1, "scripthash");
    assert Get(ps, "publickey") == Get(p1, "publickey");
  }

  lemma SignatureLinkQuery(signature: string, acc: Account)
    requires IsLinkValue(signature) && IsLinkValue(acc.address)
    requires IsLinkValue(acc.scriptHash) && IsLinkValue(acc.publicKey)
    ensures SignatureUrl(signature, acc).SearchParams() == SignatureParams(signature, acc)
    ensures SignatureViewOf(SignatureUrl(signature, acc))
         == SignatureView(Some(acc.address), Some(acc.scriptHash), Some(acc.publicKey), Some(signature))
  {
    QueryRoundTrip(SignatureParams(signature, acc));
    SignatureParamsGet(signature, acc);
  }

  /**
   * The fragment a successful signing writes, once the hash change reaches
   * `App`, shows the signature page with exactly the signature and the
   * account's public fields; its query holds those four parameters and
   * nothing else.
   */
  lemma SignatureLinkReadsBack(b: Browser, signature: string, acc: Account)
    requires IsLinkValue(signature) && IsLinkValue(acc.address)
    requires IsLinkValue(acc.scriptHash) && IsLinkValue(acc.publicKey)
    ensures var screen := Dispatch(b, AssignHash(SignatureFragment(signature, acc)));
      screen.Some? && screen.value.route == SignatureRoute
      && screen.value.url.SearchParams() == SignatureParams(signature, acc)
      && SignatureViewOf(screen.value.url)
         == SignatureView(Some(acc.address), Some(acc.scriptHash), Some(acc.publicKey), Some(signature))
  {
    SignatureLinkDispatch(b, signature, acc);
    SignatureLinkQuery(signature, acc);
  }

  /**
   * End to end: signing in either mode, then the hash change, shows the
   * signature of the message for the request under the derived key, with
   * that key's public fields.
   */
  lemma SignedLinkReadsBack(b: Browser, w: Wallet, mode: KeyMode, input: string, magic: uint32, txHash: string)
    requires Hex.IsHexString(txHash)
    requires Sign(w, mode, input, magic, txHash).Success?
    requires var acc := w.account(SigningKey(w, mode, input));
      IsLinkValue(w.sign(SigningMessage(magic, txHash), acc.privateKey))
      && IsLinkValue(acc.address) && IsLinkValue(acc.scriptHash) && IsLinkValue(acc.publicKey)
    ensures var acc := w.account(SigningKey(w, mode, input));
      var screen := Dispatch(b, AssignHash(Sign(w, mode, input, magic, txHash).value));
      screen.Some? && screen.value.route == SignatureRoute
      && SignatureViewOf(screen.value.url) == SignatureView(Some(acc.address), Some(acc.scriptHash),
           Some(acc.publicKey), Some(w.sign(SigningMessage(magic, txHash), acc.privateKey)))
  {
    var acc := w.account(SigningKey(w, mode, input));
    var signature := w.sign(SigningMessage(magic, txHash), acc.privateKey);
    assert Sign(w, mode, input, magic, txHash).value == SignatureFragment(signature, acc);
    SignatureLinkReadsBack(b, signature, acc);
  }

  /**
   * PageHome's button: the fragment of the entered link when it has one,
   * otherwise the text itself; `None` when `new URL` throws, which leaves
   * the location alone.
   */
  function HomeNext(b: Browser, text: string): (r: Option<string>)
    ensures r.None? <==> Parse(text, b.base, b.parseOther).None?
    ensures r.Some? ==> var h := Parse(text, b.base, b.parseOther).value.Hash();
      r.value == if h != "" then h else text
  {
    match Parse(text, b.base, b.parseOther)
    case None => None
    case Some(url) => Some(if url.Hash() != "" then url.Hash() else text)
  }

  /** A link with a non-empty fragment moves the app to exactly that fragment. */
  lemma HomeAdoptsLinkFragment(b: Browser, text: string)
    requires Parse(text, b.base, b.parseOther).Some?
    requires var url := Parse(text, b.base, b.parseOther).value;
      url.Hash() != "" && forall c :: c in url.fragment.value ==> !InFragmentSet(c)
    ensures AssignHash(HomeNext(b, text).value) == Parse(text, b.base, b.parseOther).value.Hash()
  {
    var f := Parse(text, b.base, b.parseOther).value.fragment.value;
    assert ("#" + f)[1..] == f;
    assert forall i :: 0 <= i < |f| ==> f[i] in f;
    EncodeFragmentKeeps(f);
  }

  /** A path-only link such as `/sign?magic=1&transaction=00` is adopted as the fragment verbatim. */
  lemma HomeAdoptsBarePath(b: Browser, path: string, query: string)
    requires IsSimplePath(path) && IsPlain(query) && '#' !in query
    ensures HomeNext(b, path + "?" + query) == Some(path + "?" + query)
    ensures Dispatch(b, AssignHash(HomeNext(b, path + "?" + query).value)).Some?
        <==> RouteOf(path).Some?
  {
    ParsePathLink(path, query, b.base, b.parseOther);
    PathLinkDispatch(b, path, query);
  }

  /** PageSecret: an account is derived only from a WIF or a raw private key. */
  function SecretAccount(w: Wallet, sk: string): (r: Option<Account>)
    ensures r.Some? <==> w.isWIF(sk) || w.isPrivateKey(sk)
    ensures r.Some? ==> r.value == w.account(sk)
  {
    if w.isWIF(sk) || w.isPrivateKey(sk) then Some(w.account(sk)) else None
  }

  /** The three rows of the secret page. */
  datatype SecretView = SecretView(address: string, scripthash: string, publickey: string)

  function SecretViewOf(w: Wallet, sk: string): (v: SecretView)
    ensures !(w.isWIF(sk) || w.isPrivateKey(sk)) ==> v == SecretView("INVALID", "0xINVALID", "INVALID")
    ensures w.isWIF(sk) || w.isPrivateKey(sk) ==>
      v == SecretView(w.account(sk).address, "0x" + w.account(sk).scriptHash, w.account(sk).publicKey)
  {
    match SecretAccount(w, sk)
    case None => SecretView("INVALID", "0xINVALID", "INVALID")
    case Some(acc) => SecretView(acc.address, "0x" + acc.scriptHash, acc.publicKey)
  }

  /**
   * `App` with the browser's location: `location` is what
   * `window.location.hash` reads, `hash` the state cell it is copied into
   * on every `hashchange`.
   */
  class App {
    const browser: Browser
    var location: string
    var hash: string

    /** `window.location.hash` only ever reads as empty or as '#' and a fragment. */
    ghost predicate Valid()
      reads this
    {
      location == "" || (|location| >= 2 && location[0] == '#')
    }

    /** Mounting: the cell starts with the location's current hash. */
    constructor(browser: Browser, initial: string)
      ensures Valid() && this.browser == browser
      ensures location == AssignHash(initial) && hash == location
    {
      this.browser := browser;
      location := AssignHash(initial);
      hash := AssignHash(initial);
    }

    /** `window.location.hash = v`. */
    method Assign(v: string)
      modifies this`location
      ensures Valid() && location == AssignHash(v)
    {
      location := AssignHash(v);
    }

    /** The `hashchange` listener: `HASH(window.location.hash)`. */
    method HashChanged()
      modifies this`hash
      ensures hash == location
    {
      hash := location;
    }

    /**
     * One render of `App`: the page for the current cell, or, when the link
     * does not parse or names no page, nothing, after redirecting to the
     * invalid-link message.
     */
    method Render() returns (screen: Option<Screen>)
      requires Valid()
      modifies this`location
      ensures Valid() && screen == Dispatch(browser, hash)
      ensures location == if screen.None? then AssignHash(MessageLink(INVALID_MSG)) else old(location)
    {
      screen := Dispatch(browser, hash);
      if screen.None? {
        Assign(MessageLink(INVALID_MSG));
      }
    }

    /** The help button of every page's frame. */
    method Help()
      modifies this`location
      ensures Valid() && location == AssignHash("/document")
    {
      Assign("/document");
    }

    /** PageHome's button, for the text currently in its input. */
    method SubmitHome(text: string)
      requires Valid()
      modifies this`location
      ensures Valid()
      ensures location == match HomeNext(browser, text)
        case None => old(location)
        case Some(next) => AssignHash(next)
    {
      var next := HomeNext(browser, text);
      if next.Some? {
        Assign(next.value);
      }
    }
  }

  /**
   * A link that names no page: the render redirects, the `hashchange` that
   * follows copies the redirect into the cell, and the next render shows
   * the home page with the invalid-link message.
   */
  method RecoverFromInvalidLink(app: App) returns (screen: Option<Screen>)
    requires app.Valid() && Dispatch(app.browser, app.hash).None?
    modifies app
    ensures app.Valid() && app.location == app.hash == AssignHash(MessageLink(INVALID_MSG))
    ensures screen.Some? && screen.value.route == HomeRoute
    ensures HomeMessage(screen.value.url) == Some(INVALID_MSG)
  {
    var first := app.Render();
    app.HashChanged();
    InvalidLinkLandsHome(app.browser);
    screen := app.Render();
  }

  /**
   * PageSign for one request: the toggle `kp` (as a key mode), the error
   * text `err` and the text in the key field. The network magic and the
   * transaction hash come from the link's query.
   */
  class SignPage {
    const wallet: Wallet
    const magic: uint32
    const txHash: string
    var mode: KeyMode
    var err: string
    var input: string

    /** `kp` starts as `true` (password mode) and `err` as empty. */
    constructor(wallet: Wallet, magic: uint32, txHash: string)
      requires Hex.IsHexString(txHash)
      ensures this.wallet == wallet && this.magic == magic && this.txHash == txHash
      ensures mode == Password && err == "" && input == ""
    {
      this.wallet := wallet;
      this.magic := magic;
      this.txHash := txHash;
      mode := Password;
      err := "";
      input := "";
    }

    /** The toggle group's `onChange`: `KP(val)`. */
    method Toggle(val: Option<bool>)
      modifies this`mode
      ensures mode == ModeOf(val)
    {
      mode := ModeOf(val);
    }

    /** Typing in the key field, whose `onChange` clears the error. */
    method Edit(text: string)
      modifies this`input, this`err
      ensures input == text && err == ""
    {
      input := text;
      err := "";
    }

    /**
     * The sign button: in password mode the key is the hex SHA-256 digest
     * of the input; in private-key mode an input that is neither a raw key
     * nor a WIF sets the error instead. On success the location moves to
     * the signature fragment and the error is left as it was.
     */
    method Click(app: App)
      requires Hex.IsHexString(txHash) && app.Valid()
      modifies this`err, app`location
      ensures app.Valid()
      ensures match Sign(wallet, mode, input, magic, txHash)
        case Success(f) => app.location == AssignHash(f) && err == old(err)
        case Failure(e) => err == e && app.location == old(app.location)
    {
      var key: string;
      if mode == Password {
        key := PasswordKey(wallet, input);
      } else {
        if !wallet.isPrivateKey(input) && !wallet.isWIF(input) {
          err := SIGN_FAILED;
          return;
        }
        key := input;
      }
      var account := wallet.account(key);
      var signature := wallet.sign(SigningMessage(magic, txHash), account.privateKey);
      app.Assign(SignatureFragment(signature, account));
    }
  }

  /** PageSecret: the key field `sk`, from which the three rows are derived. */
  class SecretPage {
    const wallet: Wallet
    var sk: string

    constructor(wallet: Wallet)
      ensures this.wallet == wallet && sk == ""
    {
      this.wallet := wallet;
      sk := "";
    }

    /** What the page shows for the current key. */
    function View(): (v: SecretView)
      reads this
      ensures match SecretAccount(wallet, sk)
        case None => v == SecretView("INVALID", "0xINVALID", "INVALID")
        case Some(acc) => v == SecretView(acc.address, "0x" + acc.scriptHash, acc.publicKey)
    {
      SecretViewOf(wallet, sk)
    }

    /** The key field's `onChange`: `SK(ev.target.value)`. */
    method Edit(v: string)
      modifies this`sk
      ensures sk == v && View() == SecretViewOf(wallet, v)
    {
      sk := v;
    }
  }

  /**
   * Signing from the sign page with an accepted key: the click moves the
   * location, the `hashchange` copies it into the cell, and the next render
   * shows the signature page with the derived account and its signature.
   */
  method SignThenShow(page: SignPage, app: App) returns (screen: Option<Screen>)
    requires Hex.IsHexString(page.txHash) && app.Valid()
    requires Accepts(page.wallet, page.mode, page.input)
    requires var acc := page.wallet.account(SigningKey(page.wallet, page.mode, page.input));
      IsLinkValue(page.wallet.sign(SigningMessage(page.magic, page.txHash), acc.privateKey))
      && IsLinkValue(acc.address) && IsLinkValue(acc.scriptHash) && IsLinkValue(acc.publicKey)
    modifies page`err, app
    ensures page.err == old(page.err)
    ensures var acc := page.wallet.account(SigningKey(page.wallet, page.mode, page.input));
      screen.Some? && screen.value.route == SignatureRoute
      && SignatureViewOf(screen.value.url) == SignatureView(Some(acc.address), Some(acc.scriptHash),
           Some(acc.publicKey), Some(page.wallet.sign(SigningMessage(page.magic, page.txHash), acc.privateKey)))
  {
    page.Click(app);
    app.HashChanged();
    SignedLinkReadsBack(app.browser, page.wallet, page.mode, page.input, page.magic, page.txHash);
    screen := app.Render();
  }
}
