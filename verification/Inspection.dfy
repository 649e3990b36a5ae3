/** What the proxy decides about a message, once its MIME structure is known. */
module Inspection {
  import opened Wrappers
  import opened Texts
  import opened Commands
  import opened Lines

  datatype Mode = Outgoing | Incoming

  datatype Header = Header(key: string, value: string)

  /** A parsed part: `body` is absent when its transfer encoding could not be undone. */
  datatype Mime = Mime(headers: seq<Header>, body: Option<seq<byte>>, subparts: seq<Mime>)

  datatype Verdict = Accept(stripSender: bool) | Refuse(reply: string)

  const REJECT_REPLY :=
    "550 5.7.1 this relay carries only end-to-end encrypted mail, and this message is not encrypted"
  const FROM_REPLY := "550 5.7.1 the From header must match the envelope sender"
  const DKIM_REPLY := "550 5.7.1 the DKIM signature does not match the From domain"

  /** The value of the first header of that name, whatever the case. */
  function HeaderValue(headers: seq<Header>, name: string): Option<string> {
    if headers == [] then None
    else if AsciiLower(headers[0].key) == name then Some(headers[0].value)
    else HeaderValue(headers[1..], name)
  }

  function Ascii(s: string): seq<byte> {
    seq(|s|, i requires 0 <= i < |s| => s[i] as int % 256)
  }

  predicate AtLineStart(haystack: seq<byte>, needle: seq<byte>) {
    exists i: nat :: i <= |haystack| && OccursAt(haystack, needle, i)
                  && (i == 0 || haystack[i - 1] == LF)
  }

  predicate HasPgpArmour(body: seq<byte>) {
    && AtLineStart(body, Ascii("-----BEGIN PGP MESSAGE-----"))
    && AtLineStart(body, Ascii("-----END PGP MESSAGE-----"))
  }

  /** Whether this part itself, not one below it, is encrypted. */
  predicate EncryptedHere(part: Mime) {
    var contentType := AsciiLower(HeaderValue(part.headers, "content-type").GetOr(""));
    || (Contains(contentType, "multipart/encrypted") && Contains(contentType, "application/pgp-encrypted"))
    || (part.body.Some? && HasPgpArmour(part.body.value))
    || Contains(contentType, "application/autocrypt-setup")
  }

  predicate IsEncryptedPart(part: Mime) {
    EncryptedHere(part) || exists i :: 0 <= i < |part.subparts| && IsEncryptedPart(part.subparts[i])
  }

  /** The address a header names, in lower case, if there is the header and it names one. */
  function HeaderAddress(part: Mime, name: string): Option<string> {
    match HeaderValue(part.headers, name)
    case None => None
    case Some(value) =>
      var address := AsciiLower(Trim(Bracketed(value).GetOr(Trim(value))));
      if address == "" then None else Some(address)
  }

  function DomainOf(address: string): Option<string> {
    match FindLast(address, '@')
    case None => None
    case Some(at) =>
      var domain := AsciiLower(Trim(address[at + 1..]));
      if domain == "" then None else Some(domain)
  }

  function FirstDTag(tags: seq<string>): Option<string> {
    if tags == [] then None
    else
      var eq := Find(tags[0], '=');
      if eq.Some? && Trim(tags[0][..eq.value]) == "d"
      then Some(AsciiLower(Trim(tags[0][eq.value + 1..])))
      else FirstDTag(tags[1..])
  }

  function DkimDomain(part: Mime): Option<string> {
    match HeaderValue(part.headers, "dkim-signature")
    case None => None
    case Some(value) => FirstDTag(Split(value, ';'))
  }

  /** Every content check, in the order the proxy makes them. */
  function Inspect(mode: Mode, parsed: Option<Mime>, mailFrom: string): Verdict {
    if parsed.None? || !IsEncryptedPart(parsed.value) then Refuse(REJECT_REPLY)
    else
      var from := HeaderAddress(parsed.value, "from");
      var mismatch := mailFrom != "" && from.Some? && AsciiLower(from.value) != AsciiLower(mailFrom);
      match mode
      case Outgoing => if mismatch then Refuse(FROM_REPLY) else Accept(false)
      case Incoming =>
        var fromDomain := if from.Some? then DomainOf(from.value) else None;
        var signing := DkimDomain(parsed.value);
        if fromDomain.Some? && signing.Some? && fromDomain.value != signing.value
        then Refuse(DKIM_REPLY)
        else Accept(mismatch)
  }

  // ..... What acceptance implies .....

  predicate IsPath(part: Mime, path: seq<nat>)
    decreases |path|
  {
    path == [] || (path[0] < |part.subparts| && IsPath(part.subparts[path[0]], path[1..]))
  }

  function At(part: Mime, path: seq<nat>): Mime
    requires IsPath(part, path)
    decreases |path|
  {
    if path == [] then part else At(part.subparts[path[0]], path[1..])
  }

  predicate EncryptedAlong(part: Mime, path: seq<nat>) {
    IsPath(part, path) && EncryptedHere(At(part, path))
  }

  /** The recursive check finds an encrypted part exactly when some part, at any depth, is one. */
  lemma {:induction false} EncryptedIffSomePart(part: Mime)
    ensures IsEncryptedPart(part) <==> exists path :: EncryptedAlong(part, path)
    decreases part
  {
    if EncryptedHere(part) {
      assert EncryptedAlong(part, []);
    }
    forall i | 0 <= i < |part.subparts| && IsEncryptedPart(part.subparts[i])
      ensures exists path :: EncryptedAlong(part, path)
    {
      EncryptedIffSomePart(part.subparts[i]);
      var below :| EncryptedAlong(part.subparts[i], below);
      assert ([i] + below)[1..] == below;
      assert EncryptedAlong(part, [i] + below);
    }
    forall path | EncryptedAlong(part, path)
      ensures IsEncryptedPart(part)
    {
      if path != [] {
        assert EncryptedAlong(part.subparts[path[0]], path[1..]);
        EncryptedIffSomePart(part.subparts[path[0]]);
      }
    }
  }

  /** The sender a message is re-injected under: the claimed one, or none. */
  function SenderAfter(verdict: Verdict, mailFrom: string): string
    requires verdict.Accept?
  {
    if verdict.stripSender then "" else mailFrom
  }

  /** Nothing passes unencrypted, and no accepted message names a sender its From disagrees with. */
  lemma AcceptedMessage(mode: Mode, parsed: Option<Mime>, mailFrom: string)
    requires Inspect(mode, parsed, mailFrom).Accept?
    ensures parsed.Some?
    ensures exists path :: EncryptedAlong(parsed.value, path)
    ensures var from := HeaderAddress(parsed.value, "from");
      var sender := SenderAfter(Inspect(mode, parsed, mailFrom), mailFrom);
      sender == "" || from.None? || AsciiLower(from.value) == AsciiLower(sender)
    ensures mode.Outgoing? ==> SenderAfter(Inspect(mode, parsed, mailFrom), mailFrom) == mailFrom
  {
    EncryptedIffSomePart(parsed.value);
  }

  // ..... The decision, said of the message .....

  /** `value` belongs to the first header of that name, whatever the case. */
  ghost predicate IsHeader(headers: seq<Header>, name: string, value: string) {
    exists i :: 0 <= i < |headers| && value == headers[i].value
      && AsciiLower(headers[i].key) == name
      && forall j :: 0 <= j < i ==> AsciiLower(headers[j].key) != name
  }

  lemma {:induction false} HeaderIs(headers: seq<Header>, name: string, value: string)
    ensures HeaderValue(headers, name) == Some(value) <==> IsHeader(headers, name, value)
    decreases |headers|
  {
    hide AsciiLower;
    if headers != [] && AsciiLower(headers[0].key) != name {
      var more := headers[1..];
      HeaderIs(more, name, value);
      if IsHeader(more, name, value) {
        var i :| 0 <= i < |more| && value == more[i].value && AsciiLower(more[i].key) == name
          && forall j :: 0 <= j < i ==> AsciiLower(more[j].key) != name;
        assert value == headers[i + 1].value;
        assert forall j :: 0 < j < i + 1 ==> headers[j] == more[j - 1];
      }
      if IsHeader(headers, name, value) {
        var i :| 0 <= i < |headers| && value == headers[i].value && AsciiLower(headers[i].key) == name
          && forall j :: 0 <= j < i ==> AsciiLower(headers[j].key) != name;
        assert value == more[i - 1].value;
      }
    }
  }

  /** `t` is the text without the whitespace around it, in lower case, and not empty. */
  ghost predicate Folds(s: string, t: string) {
    t != "" && exists u: string :: IsTrimOf(u, s) && t == AsciiLower(u)
  }

  lemma FoldsIs(s: string, t: string)
    ensures Folds(s, t) <==> t != "" && t == AsciiLower(Trim(s))
  {
    hide Trim, IsTrimOf, AsciiLower;
    TrimIs(s, Trim(s));
    if Folds(s, t) {
      var u: string :| IsTrimOf(u, s) && t == AsciiLower(u);
      TrimIs(s, u);
    }
  }

  /** The address a header names: what its angle brackets hold, or else all of it. */
  ghost predicate HeaderNames(part: Mime, name: string, address: string) {
    exists value: string :: IsHeader(part.headers, name, value)
      && if HasBrackets(value) then exists inner: string :: IsBracketed(value, inner) && Folds(inner, address)
         else Folds(value, address)
  }

  lemma HeaderAddressIs(part: Mime, name: string, address: string)
    ensures HeaderAddress(part, name) == Some(address) <==> HeaderNames(part, name, address)
  {
    hide Trim, AsciiLower, Bracketed, Folds, IsHeader, HasBrackets, IsBracketed;
    var found := HeaderValue(part.headers, name);
    forall v: string
      ensures found == Some(v) <==> IsHeader(part.headers, name, v)
    {
      HeaderIs(part.headers, name, v);
    }
    if found.Some? {
      var value := found.value;
      BracketedIs(value);
      TrimTwice(value);
      if HasBrackets(value) {
        var inner := Bracketed(value).value;
        FoldsIs(inner, address);
        forall b: string | IsBracketed(value, b)
          ensures b == inner
        {
          BracketedUnique(value, b, inner);
        }
      } else {
        FoldsIs(value, address);
      }
    }
  }

  lemma TrimTwice(s: string)
    ensures Trim(Trim(s)) == Trim(s)
  {
    hide Trim, IsWhitespace;
    var t := Trim(s);
    TrimIs(s, t);
    var i: nat, j: nat :| TrimsTo(s, i, j) && t == s[i..j];
    assert TrimsTo(t, 0, |t|) && t[0..|t|] == t;
    TrimIs(t, t);
  }

  /** The domain is what follows the address's last `@`. */
  ghost predicate IsDomain(address: string, domain: string) {
    exists at :: 0 <= at < |address| && address[at] == '@' && '@' !in address[at + 1..]
      && Folds(address[at + 1..], domain)
  }

  lemma DomainIs(address: string, domain: string)
    ensures DomainOf(address) == Some(domain) <==> IsDomain(address, domain)
  {
    hide Trim, AsciiLower, Folds;
    FindLastIs(address, '@');
    match FindLast(address, '@')
    case None =>
    case Some(at) =>
      FoldsIs(address[at + 1..], domain);
      forall k | 0 <= k < |address| && address[k] == '@' && '@' !in address[k + 1..]
        ensures k == at
      {
        LastAt(address, '@', k, at);
      }
  }

  /** The tag assigns to `d`, and `value` is what it assigns. */
  ghost predicate Assigns(tag: string, value: string) {
    exists eq: nat :: eq < |tag| && tag[eq] == '=' && '=' !in tag[..eq]
      && IsTrimOf("d", tag[..eq])
      && exists u: string :: IsTrimOf(u, tag[eq + 1..]) && value == AsciiLower(u)
  }

  lemma AssignsIs(tag: string, value: string)
    ensures Assigns(tag, value) <==> FirstDTag([tag]) == Some(value)
  {
    hide Trim, AsciiLower, IsTrimOf;
    FindIs(tag, '=');
    assert [tag][1..] == [];
    forall eq: nat | eq < |tag| && tag[eq] == '=' && '=' !in tag[..eq]
      ensures Find(tag, '=') == Some(eq)
    {
      FirstAt(tag, '=', eq, Find(tag, '=').value);
    }
    if Find(tag, '=').Some? {
      var eq := Find(tag, '=').value;
      TrimIs(tag[..eq], "d");
      TrimIs(tag[eq + 1..], Trim(tag[eq + 1..]));
      if Assigns(tag, value) {
        var u: string :| IsTrimOf(u, tag[eq + 1..]) && value == AsciiLower(u);
        TrimIs(tag[eq + 1..], u);
      }
    }
  }

  /** The first of the tags that assigns to `d` assigns `value`. */
  ghost predicate FirstAssigned(tags: seq<string>, value: string) {
    exists i :: 0 <= i < |tags| && Assigns(tags[i], value)
      && forall j, other :: 0 <= j < i ==> !Assigns(tags[j], other)
  }

  lemma {:induction false} FirstDTagIs(tags: seq<string>, value: string)
    ensures FirstDTag(tags) == Some(value) <==> FirstAssigned(tags, value)
    decreases |tags|
  {
    hide Assigns, AsciiLower, Trim;
    if tags != [] {
      var tag, more := tags[0], tags[1..];
      forall other
        ensures Assigns(tag, other) <==> FirstDTag([tag]) == Some(other)
      {
        AssignsIs(tag, other);
      }
      assert [tag][1..] == [];
      FirstDTagIs(more, value);
      if FirstDTag([tag]).None? {
        if FirstAssigned(more, value) {
          var i :| 0 <= i < |more| && Assigns(more[i], value)
            && forall j, other :: 0 <= j < i ==> !Assigns(more[j], other);
          assert Assigns(tags[i + 1], value);
          assert forall j :: 0 < j < i + 1 ==> tags[j] == more[j - 1];
        }
        if FirstAssigned(tags, value) {
          var i :| 0 <= i < |tags| && Assigns(tags[i], value)
            && forall j, other :: 0 <= j < i ==> !Assigns(tags[j], other);
          assert Assigns(more[i - 1], value);
        }
      } else {
        assert Assigns(tags[0], FirstDTag([tag]).value);
        assert FirstDTag(tags) == FirstDTag([tag]);
      }
    }
  }

  /** The domain that the message's DKIM signature claims, its tags being cut at the semicolons. */
  ghost predicate Claims(part: Mime, domain: string) {
    exists value: string, tags: seq<string> :: IsHeader(part.headers, "dkim-signature", value)
      && tags != [] && Rejoined(tags, ';') == value && (forall i :: 0 <= i < |tags| ==> ';' !in tags[i])
      && FirstAssigned(tags, domain)
  }

  lemma ClaimsIs(part: Mime, domain: string)
    ensures DkimDomain(part) == Some(domain) <==> Claims(part, domain)
  {
    hide FirstDTag, FirstAssigned, IsHeader, Split;
    forall v: string
      ensures HeaderValue(part.headers, "dkim-signature") == Some(v) <==> IsHeader(part.headers, "dkim-signature", v)
    {
      HeaderIs(part.headers, "dkim-signature", v);
    }
    match HeaderValue(part.headers, "dkim-signature")
    case None =>
    case Some(value) =>
      SplitIs(value, ';');
      FirstDTagIs(Split(value, ';'), domain);
      forall tags: seq<string> | tags != [] && Rejoined(tags, ';') == value
                                 && forall i :: 0 <= i < |tags| ==> ';' !in tags[i]
        ensures tags == Split(value, ';')
      {
        SplitRejoins(tags, ';');
      }
  }

  // ..... The encryption of one part .....

  ghost predicate Holds(s: string, needle: string) {
    exists a: string, b: string :: s == a + needle + b
  }

  lemma ContainsIs(s: string, needle: string)
    ensures Contains(s, needle) <==> Holds(s, needle)
  {
    if Contains(s, needle) {
      var i: nat :| i <= |s| && OccursAt(s, needle, i);
      AroundOccurrence(s, needle, i);
    }
    if Holds(s, needle) {
      var a, b :| s == a + needle + b;
      OccursBetween(a, needle, b);
    }
  }

  predicate Spells(line: seq<byte>, text: string) {
    |line| == |text| && forall i :: 0 <= i < |text| ==> line[i] == text[i] as int
  }

  /** A line of the body starts with that text. */
  ghost predicate LineStartsWith(body: seq<byte>, text: string) {
    exists a: seq<byte>, line: seq<byte>, b: seq<byte> {:trigger a + line + b} ::
      Spells(line, text) && body == a + line + b && (a == [] || a[|a| - 1] == 10)
  }

  lemma AtLineStartIs(body: seq<byte>, text: string)
    requires forall i :: 0 <= i < |text| ==> text[i] as int < 128
    ensures AtLineStart(body, Ascii(text)) <==> LineStartsWith(body, text)
  {
    var line := Ascii(text);
    assert Spells(line, text);
    forall l: seq<byte> | Spells(l, text)
      ensures l == line
    {
    }
    hide Spells, Ascii;
    if AtLineStart(body, line) {
      var i: nat :| i <= |body| && OccursAt(body, line, i) && (i == 0 || body[i - 1] == LF);
      assert i + |line| <= |body|;
      hide OccursAt;
      AroundOccurrence(body, line, i);
      assert i > 0 ==> body[..i][i - 1] == 10;
    }
    if LineStartsWith(body, text) {
      var a: seq<byte>, l: seq<byte>, b: seq<byte> :|
        Spells(l, text) && body == a + l + b && (a == [] || a[|a| - 1] == 10);
      hide OccursAt;
      OccursBetween(a, line, b);
    }
  }

  /** The content type of a part, in lower case. */
  ghost predicate TypeHolds(part: Mime, needle: string) {
    exists value: string :: IsHeader(part.headers, "content-type", value) && Holds(AsciiLower(value), needle)
  }

  /** PGP/MIME by its content type, an armoured block in its own body, or an Autocrypt setup message. */
  ghost predicate IsEncryptedItself(part: Mime) {
    || (TypeHolds(part, "multipart/encrypted") && TypeHolds(part, "application/pgp-encrypted"))
    || TypeHolds(part, "application/autocrypt-setup")
    || (part.body.Some?
        && LineStartsWith(part.body.value, "-----BEGIN PGP MESSAGE-----")
        && LineStartsWith(part.body.value, "-----END PGP MESSAGE-----"))
  }

  lemma TypeIs(part: Mime, needle: string)
    requires needle != ""
    ensures Contains(AsciiLower(HeaderValue(part.headers, "content-type").GetOr("")), needle)
       <==> TypeHolds(part, needle)
  {
    hide IsHeader, Contains;
    assert !Holds("", needle);
    hide Holds;
    var found := HeaderValue(part.headers, "content-type");
    ContainsIs(AsciiLower(found.GetOr("")), needle);
    forall v: string
      ensures found == Some(v) <==> IsHeader(part.headers, "content-type", v)
    {
      HeaderIs(part.headers, "content-type", v);
    }
  }

  lemma EncryptedHereIs(part: Mime)
    ensures EncryptedHere(part) <==> IsEncryptedItself(part)
  {
    hide AtLineStart, LineStartsWith, Ascii, TypeHolds, Contains, AsciiLower;
    TypeIs(part, "multipart/encrypted");
    TypeIs(part, "application/pgp-encrypted");
    TypeIs(part, "application/autocrypt-setup");
    if part.body.Some? {
      AtLineStartIs(part.body.value, "-----BEGIN PGP MESSAGE-----");
      AtLineStartIs(part.body.value, "-----END PGP MESSAGE-----");
    }
  }

  // ..... The decision .....

  ghost predicate EncryptedAt(part: Mime, path: seq<nat>) {
    IsPath(part, path) && IsEncryptedItself(At(part, path))
  }

  /** The message could be parsed, and some part of it, at some depth, is encrypted itself. */
  ghost predicate HoldsEncrypted(parsed: Option<Mime>) {
    parsed.Some? && exists path :: EncryptedAt(parsed.value, path)
  }

  /** The claimed sender, if any, is not the From address, whatever the case. */
  ghost predicate Mismatched(part: Mime, mailFrom: string) {
    mailFrom != "" && exists from :: HeaderNames(part, "from", from) && from != AsciiLower(mailFrom)
  }

  /** The DKIM signature claims another domain than that of the From address. */
  ghost predicate Misaligned(part: Mime) {
    exists from, domain, claimed
      {:trigger HeaderNames(part, "from", from), IsDomain(from, domain), Claims(part, claimed)} ::
      HeaderNames(part, "from", from) && IsDomain(from, domain) && Claims(part, claimed) && domain != claimed
  }

  /** Exactly when a message is accepted, and under which sender, and when it is refused, and with
      which reply. */
  lemma InspectIs(mode: Mode, parsed: Option<Mime>, mailFrom: string)
    ensures Inspect(mode, parsed, mailFrom) ==
      if !HoldsEncrypted(parsed) then
        Refuse("550 5.7.1 this relay carries only end-to-end encrypted mail, and this message is not encrypted")
      else if mode == Outgoing then
        if Mismatched(parsed.value, mailFrom)
        then Refuse("550 5.7.1 the From header must match the envelope sender")
        else Accept(false)
      else
        if Misaligned(parsed.value)
        then Refuse("550 5.7.1 the DKIM signature does not match the From domain")
        else Accept(Mismatched(parsed.value, mailFrom))
  {
    hide IsEncryptedPart, EncryptedAt, HeaderAddress, HeaderNames, DomainOf, IsDomain, DkimDomain, Claims, AsciiLower,
      Mismatched, Misaligned;
    if parsed.Some? {
      EncryptedIs(parsed.value);
      MismatchedIs(parsed.value, mailFrom);
      MisalignedIs(parsed.value);
    }
  }

  lemma EncryptedIs(part: Mime)
    ensures IsEncryptedPart(part) <==> exists path :: EncryptedAt(part, path)
  {
    hide EncryptedHere, IsEncryptedItself, IsPath, At, IsEncryptedPart;
    EncryptedIffSomePart(part);
    forall path: seq<nat>
      ensures EncryptedAlong(part, path) <==> EncryptedAt(part, path)
    {
      if IsPath(part, path) { EncryptedHereIs(At(part, path)); }
    }
    if IsEncryptedPart(part) {
      var path :| EncryptedAlong(part, path);
      assert EncryptedAt(part, path);
    }
  }

  lemma FromIs(part: Mime)
    ensures forall from: string :: HeaderNames(part, "from", from) <==> HeaderAddress(part, "from") == Some(from)
    ensures HeaderAddress(part, "from").Some? ==>
      AsciiLower(HeaderAddress(part, "from").value) == HeaderAddress(part, "from").value
  {
    hide HeaderNames, HeaderValue, Bracketed, Trim;
    forall from: string
      ensures HeaderNames(part, "from", from) <==> HeaderAddress(part, "from") == Some(from)
    {
      HeaderAddressIs(part, "from", from);
    }
  }

  lemma MismatchedIs(part: Mime, mailFrom: string)
    ensures Mismatched(part, mailFrom) <==>
      var from := HeaderAddress(part, "from");
      mailFrom != "" && from.Some? && AsciiLower(from.value) != AsciiLower(mailFrom)
  {
    hide HeaderNames, HeaderAddress, AsciiLower;
    FromIs(part);
  }

  lemma MisalignedIs(part: Mime)
    ensures Misaligned(part) <==>
      var from := HeaderAddress(part, "from");
      var domain := if from.Some? then DomainOf(from.value) else None;
      domain.Some? && DkimDomain(part).Some? && domain.value != DkimDomain(part).value
  {
    hide HeaderNames, HeaderAddress, AsciiLower, DomainOf, IsDomain, DkimDomain, Claims;
    FromIs(part);
    forall claimed: string
      ensures Claims(part, claimed) <==> DkimDomain(part) == Some(claimed)
    {
      ClaimsIs(part, claimed);
    }
    var from := HeaderAddress(part, "from");
    if from.Some? {
      forall domain: string
        ensures IsDomain(from.value, domain) <==> DomainOf(from.value) == Some(domain)
      {
        DomainIs(from.value, domain);
      }
    }
  }
}
