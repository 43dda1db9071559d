# Neo Off Line, modelled in Dafny

Neo Off Line is a single-page web app for signing Neo N3 transactions on an
offline device. Everything it does hangs off the fragment of its own URL:
`App` reads `window.location.hash`, parses the part after `#` as a URL
relative to the page, and picks a page by the resulting pathname (`/` home,
`/sign`, `/signature`, `/secret`, `/document`). Anything that does not parse
or names no page sends the browser to `#/?msg=INVALIDNEOOFFLINELINK`.

The sign page signs the hex message made of the network magic as four
little-endian bytes followed by the transaction hash with its bytes
reversed. The key comes either from a password (the SHA-256 digest of its
UTF-8 bytes, as hex) or from a private key typed in directly, which must be
a raw private key or a WIF; otherwise the page shows `SIGN FAILED`. On
success it writes `/signature?signature=…&address=…&scripthash=…&publickey=…`
into the fragment, and the signature page reads those four parameters back.
The home page turns a pasted link into a fragment. The secret page derives
an account only from a valid WIF or private key.

The project has six modules, one per file:

- `Wrappers` (`wrappers.dfy`): `Option` and `Result`.
- `Hex` (`hex.dfy`): the neon-core hex helpers the sign page imports:
  `ab2hexstring`, `num2hexstring(…, true)` and `reverseHex`.
- `Utf8` (`utf8.dfy`): `TextEncoder.encode`, with a whole-sequence decoder
  that reads its output back.
- `Url` (`url.dfy`): the WHATWG URL behaviour the app relies on. This covers
  relative parsing of its own links, `searchParams.get` and the
  `location.hash` setter and getter.
- `Signing` (`signing.dfy`): the signing message, the two key modes and the
  result fragment. The wallet operations are uninterpreted function fields
  of a `Wallet` value.
- `Router` (`router.dfy`): `App`'s dispatch and the page state. `App`,
  `SignPage` and `SecretPage` are classes whose methods update the React
  state cells and `window.location.hash`. Lemmas there connect a written
  link to the page it then shows.

## Model

| member | source | states |
|---|---|---|
| Hex.BytesToHex | src/App.tsx:58 | `ab2hexstring` gives two lower-case hex digits per byte, in order, so the length is twice the byte count |
| Hex.BytesHexRoundTrip | src/App.tsx:58 | reading the hex string of the digest back as bytes gives the digest again |
| Hex.Num2HexLE | src/App.tsx:59 | `num2hexstring(num, size, true)` is exactly `2*size` lower-case hex digits |
| Hex.Num2HexLERoundTrip | src/App.tsx:59 | reading the encoding as a little-endian number gives `num` back |
| Hex.LeValueRoundTrip | src/App.tsx:59 | every lower-case hex string is the little-endian encoding of the number it reads as |
| Hex.ReverseHex | src/App.tsx:59 | `reverseHex` keeps the length and stays a whole-byte hex string |
| Hex.ReverseHexAppend | src/App.tsx:59 | reversing a concatenation reverses the order of the two parts |
| Hex.ReverseHexInvolution | src/App.tsx:59 | reversing the byte order twice gives the original hash |
| Hex.ReverseHexByte | src/App.tsx:59 | byte `i` of the reversed string is byte `n-1-i` of the original |
| Utf8.EncodeChar | src/App.tsx:57 | one character becomes 1 to 4 bytes, with the lead-byte ranges and continuation bytes of UTF-8 |
| Utf8.CharRoundTrip | src/App.tsx:57 | decoding the bytes of one character gives the character back |
| Utf8.Encode | src/App.tsx:57 | the password's bytes number between one and four per character, and exactly one per ASCII character |
| Utf8.EncodeRoundTrip | src/App.tsx:57 | decoding the password's bytes gives back its characters' scalar values, one per character and in order |
| Utf8.EncodeInjective | src/App.tsx:57 | two passwords with the same bytes are the same password, so each password hashes its own bytes |
| Url.ParseEmpty | src/App.tsx:135 | `new URL("", base)` is the base URL without its fragment |
| Url.ParseFragmentOnly | src/App.tsx:135 | `new URL("#f", base)` keeps the base's path and query and has the fragment `f` |
| Url.ParseQueryOnly | src/App.tsx:116 | `new URL("?q", base)` keeps the base's path, has the query `q` and no fragment |
| Url.ParseOther | src/App.tsx:116 | inputs outside the computed subset get the browser parser's result, including its failure |
| Url.Url.SearchParams | src/App.tsx:76 | an absent query has no parameters; no name holds '=' or '&' and no value holds '&' |
| Url.ParseQuery | src/App.tsx:112 | the empty query has no parameters; every pair comes from one '&'-free segment, with a name free of '=' |
| Url.Url.Hash | src/App.tsx:116 | the `hash` getter is empty iff the fragment is absent or empty, otherwise '#' and the fragment |
| Url.IndexOf | src/App.tsx:76 | the position of the first occurrence, or the length when there is none |
| Url.SplitOn | src/App.tsx:76 | splitting at '&' gives at least one part, and no part contains the separator |
| Url.SplitJoin | src/App.tsx:76 | splitting a join of separator-free parts gives the parts back |
| Url.JoinSplit | src/App.tsx:76 | joining the parts of a split gives the original string back |
| Url.Get | src/App.tsx:112 | `searchParams.get` finds a value iff the name occurs, and then gives the value of the first pair with that name |
| Url.QueryRoundTrip | src/App.tsx:76 | a query written as `name=value` pairs joined by '&' parses back into the same pairs, when names hold no '=', '&' or '+' and values no '&' or '+' |
| Url.SerializeQueryPlain | src/App.tsx:59 | a query built from plain names and values is plain and has no '#' |
| Url.EncodeFragment | src/App.tsx:59 | the fragment setter's output holds no character of the fragment percent-encode set |
| Url.EncodeFragmentKeeps | src/App.tsx:59 | a fragment with nothing to encode is kept unchanged |
| Url.AssignHash | src/App.tsx:153 | after assigning `location.hash` it reads either as empty or as '#' followed by at least one character |
| Url.AssignHashIdempotent | src/App.tsx:117 | assigning the value `location.hash` reads as changes nothing |
| Url.AssignPlainHash | src/App.tsx:59 | assigning a plain value without a leading '#' makes `location.hash` read as '#' plus that value |
| Signing.ModeOf | src/App.tsx:43 | the toggle selects password mode iff it reports `true`; `false` and the null of a second press both select private-key mode |
| Signing.SigningMessage | src/App.tsx:59 | the message has 8 + the hash's length hex digits; its first 8 read little-endian as the magic, and the rest is the hash byte-reversed |
| Signing.MessageDeterminesRequest | src/App.tsx:59 | two requests with the same message have the same magic and the same transaction hash |
| Signing.MessagePrefix | src/App.tsx:59 | the first 8 characters are exactly `num2hexstring(magic, 4, true)` |
| Signing.SigningKey | src/App.tsx:57-63 | private-key mode signs with the input itself; password mode with the hex of the SHA-256 digest of the input's UTF-8 bytes |
| Signing.AcceptsByMode | src/App.tsx:56-62 | password mode accepts every input; private-key mode accepts exactly the inputs that are a private key or a WIF |
| Signing.PasswordKey | src/App.tsx:57-58 | the password-mode key is lower-case hex that reads back as the SHA-256 digest of the password's UTF-8 bytes |
| Signing.SignatureFragment | src/App.tsx:59 | the success fragment is `/signature?` followed by the four result pairs written as a query, in the order signature, address, scripthash, publickey |
| Signing.Sign | src/App.tsx:54-69 | signing fails iff the mode is private-key and the input is neither a private key nor a WIF; the error is `SIGN FAILED`; success gives the fragment for the derived account and the signature of the message under its private key |
| Signing.PasswordModeUnchecked | src/App.tsx:56-60 | password mode always succeeds, and its result does not depend on the validity predicates |
| Signing.FragmentOmitsPrivateKey | src/App.tsx:59 | accounts that differ only in their private key give the same fragment for the same signature |
| Router.RouteOf | src/App.tsx:136-151 | a recognised pathname maps to the route whose path it is |
| Router.RouteTable | src/App.tsx:136-151 | each route's path maps back to it, and exactly the five paths `/`, `/sign`, `/signature`, `/secret`, `/document` are recognised |
| Router.Dispatch | src/App.tsx:134-154 | a page is shown iff `hash.slice(1)` parses and its pathname is one of the five paths; the page is that path's route, with the parsed URL |
| Router.RootHashShowsHome | src/App.tsx:137-138 | the hash `#/` shows the home page with no query and therefore no message |
| Router.EmptyHashShowsBase | src/App.tsx:134-151 | an empty hash shows the page of the document's own path, with the document's URL minus its fragment, or nothing when that path is no page |
| Router.HexIsLinkValue | src/App.tsx:59 | hex strings need no escaping in the app's links |
| Router.ParsePathLink | src/App.tsx:135 | a simple path with a plain query parses to that path and query, without a fragment |
| Router.PathLinkDispatch | src/App.tsx:134-151 | a link `path?query` assigned to the hash shows the page for `path` with that query, or nothing when the path is no page |
| Router.MessageLinkLandsHome | src/App.tsx:112 | a home link carrying `msg` shows the home page, and its `msg` parameter reads back as exactly `msg` |
| Router.InvalidLinkLandsHome | src/App.tsx:153 | the catch branch's redirect shows the home page with the message `INVALIDNEOOFFLINELINK` |
| Router.HomeMessage | src/App.tsx:112 | the home field is in error iff a `msg` parameter is present, and its text is the value of the first one |
| Router.SignatureViewOf | src/App.tsx:76 | the signature page shows the first `address`, `scripthash`, `publickey` and `signature` parameter, each absent when missing |
| Router.SignatureLinkQuery | src/App.tsx:76 | the query of the success fragment reads back as the four pairs, and the signature page shows the four values |
| Router.SignatureLinkReadsBack | src/App.tsx:76 | after the success fragment is assigned, `App` shows the signature page with the account's address, script hash, public key and the signature |
| Router.SignedLinkReadsBack | src/App.tsx:59 | end to end, in either mode, a successful signing leads to the signature page showing the derived account's public fields and its signature of the message |
| Router.HomeNext | src/App.tsx:116-117 | the home button does nothing only when `new URL` throws; otherwise it gives the link's `hash` when that is non-empty and the raw text when it is empty |
| Router.HomeAdoptsLinkFragment | src/App.tsx:116-117 | a link with a non-empty fragment that needs no encoding moves the location to exactly that fragment |
| Router.HomeAdoptsBarePath | src/App.tsx:116-117 | a bare `path?query` is adopted as the fragment verbatim, and it shows a page iff the path is one of the app's |
| Router.SecretAccount | src/App.tsx:89 | an account exists iff the key is a WIF or a private key, and it is the account of that key |
| Router.SecretViewOf | src/App.tsx:92-94 | an invalid key shows `INVALID`, `0xINVALID` and `INVALID`; a valid one shows its address, `0x` with its script hash, and its public key |
| Router.App.constructor | src/App.tsx:125 | the hash cell starts as the location's current hash |
| Router.App.Assign | src/App.tsx:13 | `window.location.hash = v` leaves the location as the hash setter makes it |
| Router.App.HashChanged | src/App.tsx:128 | the `hashchange` listener copies the location's hash into the cell |
| Router.App.Render | src/App.tsx:134-155 | the page shown is the dispatch of the cell; when there is none the location becomes the invalid-link redirect, otherwise it is unchanged |
| Router.App.Help | src/App.tsx:13 | the help button moves the location to `#/document` |
| Router.App.SubmitHome | src/App.tsx:116-117 | the home button assigns the link's hash or the raw text, and leaves the location alone when `new URL` throws |
| Router.RecoverFromInvalidLink | src/App.tsx:153 | a cell naming no page leads, after the redirect and its `hashchange`, to the home page with the invalid-link message |
| Router.SignPage.constructor | src/App.tsx:27-28 | the page starts in password mode with an empty error |
| Router.SignPage.Toggle | src/App.tsx:43 | the toggle sets the mode from the value it reports |
| Router.SignPage.Edit | src/App.tsx:51 | typing in the key field clears the error |
| Router.SignPage.Click | src/App.tsx:54-69 | on success the location becomes the success fragment and the error is unchanged; on failure the error becomes `SIGN FAILED` and the location is unchanged |
| Router.SignThenShow | src/App.tsx:59 | a click with an accepted key, its `hashchange` and the next render show the signature page with the derived account and its signature |
| Router.SecretPage.View | src/App.tsx:89-94 | the page shows `INVALID`, `0xINVALID`, `INVALID` when no account is derived, otherwise the account's address, `0x` with its script hash, and its public key |
| Router.SecretPage.constructor | src/App.tsx:88 | the key field starts empty |
| Router.SecretPage.Edit | src/App.tsx:99 | typing sets the key, and the page then shows the view derived from it |

## Left out

- Rendering: the MUI markup is not modelled. Neither are the share button, the copy-to-clipboard buttons, the `Link` to `/` and the reload button of the secret page. These are browser effects with no state of the app behind them.
- The listing rows of the sign page (version, nonce, fees, valid-until block, signers, attributes, script) are not modelled. They are display-only.
- `parseInt` of `magic` and `tx.Transaction.deserialize` of `transaction` are not modelled. The sign page is given its magic as a 32-bit unsigned number and the transaction's hash as a hex string.
- A missing or malformed request is not modelled. A non-numeric `magic` makes `parseInt` return NaN without throwing (src/App.tsx:30). A bad `transaction` makes `deserialize` throw while React renders `PageSign`, after `App` has returned it (src/App.tsx:140), so `App`'s catch (src/App.tsx:152-153) is not reached from there.
- Signing.SigningMessage: the 32-bit unsigned magic leaves out `num2hexstring` throwing on a NaN or negative magic. In private-key mode that throw is caught and shows `SIGN FAILED` (src/App.tsx:64-67).
- neon-core's `wallet.isPrivateKey`, `wallet.isWIF`, `new wallet.Account`, `wallet.sign` and the SHA-256 of `crypto.subtle.digest` are uninterpreted functions of a `Wallet` value. No cryptography is modelled.
- Signing.Sign: in password mode the source signs in a promise callback, after the digest resolves. The model performs it in the same step. An exception inside that callback does not reach the `catch` and so sets no error; the model has no such failure.
- The `/document` page is a placeholder (`TODO`). It is only routed.
- Url.Parse: only the inputs the app writes itself are computed, and only when every character is visible ASCII other than `"<>`'%\`. Such inputs are computed when they are empty, start with `#` or `?`, or start with a path made only of letters, digits and `/-_~` that begins with `/` but not `//`. The path may be followed by `?query` and `#fragment`. Every other input is handed to the `parseOther` function of the `Browser` value.
- Url.Get: percent-decoding of query names and values is not modelled. Names and values are compared as written, with only '+' turned into a space.
- Utf8.Encode: a Dafny `char` is a Unicode scalar value, so a password holding a lone surrogate cannot be represented. `TextEncoder` would write EF BF BD for it.
- Router.App.HashChanged: the browser fires `hashchange` only when the hash actually changes. The model's callers invoke the listener explicitly.
- The hash cell's setter and the `useEffect` cleanup that removes the listener are not modelled. The model has a single mounted `App`.

## Notes on the source

- The secret page's script-hash row writes `0x` before `account?.scriptHash ?? 'INVALID'`, so an invalid key shows `0xINVALID` (src/App.tsx:93).
- The key toggle is exclusive, so a second press on the selected button reports `null`. `kp` then holds `null`, which selects private-key mode (src/App.tsx:43, 56).
