/** The document a local actor is served as, and what of its profile the document can reveal. */
module FederatedActor {
  import opened Wrappers
  import opened Jsons

  datatype Visibility = Public | Followers | Connections | Private

  datatype Section = Section(kind: string, visibility: Visibility, data: Json)

  datatype Actor = Actor(
    apId: string, apType: string, username: string, publicKeyPem: string, displayName: Option<string>,
    summary: Option<string>, ed25519: Option<string>, movedTo: Option<string>, avatar: Option<string>,
    header: Option<string>, orcid: Option<string>, chatmail: Option<string>,
    chatmailVisible: bool, federateProfile: bool)

  /** What the document is made from; the lifetime hint is a number's text. */
  datatype Inputs = Inputs(
    actor: Actor, domain: string, sections: seq<Section>, aliases: seq<string>, links: seq<string>,
    ttl: Option<string>, connections: Option<string>, avatarAlt: Option<string>)

  const AS_CONTEXT := "https://www.w3.org/ns/activitystreams"
  const SECURITY_CONTEXT := "https://w3id.org/security/v1"
  const MULTIKEY_CONTEXT := "https://w3id.org/security/multikey/v1"
  const NOOMBAT_NS := "https://noombat.org/ns#"
  const SCHEMA_NS := "http://schema.org#"
  const DEFAULT_TTL_SECS := "604800"
  const TTL := "noombat:ttl"

  // ..... Markup .....

  function Replaced(s: string, c: char, to: string): string {
    if s == [] then [] else (if s[0] == c then to else [s[0]]) + Replaced(s[1..], c, to)
  }

  const AMP := "&amp;"
  const LT := "&lt;"
  const GT := "&gt;"
  const QUOT := "&quot;"
  const APOS := "&#x27;"

  function EscapeHtml(s: string): string {
    Replaced(Replaced(Replaced(Replaced(Replaced(s, '&', AMP), '<', LT), '>', GT), '"', QUOT), '\'', APOS)
  }

  /** One character's escape. */
  function EscapedChar(c: char): string {
    if c == '&' then AMP else if c == '<' then LT else if c == '>' then GT
    else if c == '"' then QUOT else if c == '\'' then APOS else [c]
  }

  function Escaped(s: string): string {
    if s == [] then [] else EscapedChar(s[0]) + Escaped(s[1..])
  }

  function Unescaped(s: string): string {
    if s == [] then []
    else if AMP <= s then "&" + Unescaped(s[5..])
    else if LT <= s then "<" + Unescaped(s[4..])
    else if GT <= s then ">" + Unescaped(s[4..])
    else if QUOT <= s then "\"" + Unescaped(s[6..])
    else if APOS <= s then "'" + Unescaped(s[6..])
    else [s[0]] + Unescaped(s[1..])
  }

  lemma {:induction false} ReplacedConcat(a: string, b: string, c: char, to: string)
    ensures Replaced(a + b, c, to) == Replaced(a, c, to) + Replaced(b, c, to)
    decreases |a|
  {
    if a == [] {
      assert a + b == b;
    } else {
      ReplacedConcat(a[1..], b, c, to);
      assert (a + b)[1..] == a[1..] + b;
    }
  }

  lemma {:induction false} NotReplaced(s: string, c: char, to: string)
    requires forall i :: 0 <= i < |s| ==> s[i] != c
    ensures Replaced(s, c, to) == s
    decreases |s|
  {
    if s != [] { NotReplaced(s[1..], c, to); }
  }

  lemma OneReplaced(c: char, d: char, to: string)
    ensures Replaced([c], d, to) == if c == d then to else [c]
  {
    assert [c][1..] == [];
    assert to + [] == to;
  }

  lemma EscapeHtmlChar(c: char)
    ensures EscapeHtml([c]) == EscapedChar(c)
  {
    hide Replaced;
    OneReplaced(c, '&', AMP);
    OneReplaced(c, '<', LT);
    OneReplaced(c, '>', GT);
    OneReplaced(c, '"', QUOT);
    OneReplaced(c, '\'', APOS);
    if c == '&' {
      NotReplaced(AMP, '<', LT);
      NotReplaced(AMP, '>', GT);
      NotReplaced(AMP, '"', QUOT);
      NotReplaced(AMP, '\'', APOS);
    } else if c == '<' {
      NotReplaced(LT, '>', GT);
      NotReplaced(LT, '"', QUOT);
      NotReplaced(LT, '\'', APOS);
    } else if c == '>' {
      NotReplaced(GT, '"', QUOT);
      NotReplaced(GT, '\'', APOS);
    } else if c == '"' {
      NotReplaced(QUOT, '\'', APOS);
    }
  }

  lemma EscapeHtmlConcat(a: string, b: string)
    ensures EscapeHtml(a + b) == EscapeHtml(a) + EscapeHtml(b)
  {
    hide Replaced;
    ReplacedConcat(a, b, '&', AMP);
    var a1, b1 := Replaced(a, '&', AMP), Replaced(b, '&', AMP);
    ReplacedConcat(a1, b1, '<', LT);
    var a2, b2 := Replaced(a1, '<', LT), Replaced(b1, '<', LT);
    ReplacedConcat(a2, b2, '>', GT);
    var a3, b3 := Replaced(a2, '>', GT), Replaced(b2, '>', GT);
    ReplacedConcat(a3, b3, '"', QUOT);
    ReplacedConcat(Replaced(a3, '"', QUOT), Replaced(b3, '"', QUOT), '\'', APOS);
  }

  /** The five passes do what one pass that escapes every character once would do: none of them
      touches what another put in. */
  lemma {:induction false} EscapesOnce(s: string)
    ensures EscapeHtml(s) == Escaped(s)
    decreases |s|
  {
    hide Replaced, EscapedChar;
    if s == [] {
      EscapeHtmlNothing();
    } else {
      EscapesOnce(s[1..]);
      EscapeHtmlChar(s[0]);
      EscapeHtmlConcat([s[0]], s[1..]);
      assert [s[0]] + s[1..] == s;
    }
  }

  lemma EscapeHtmlNothing()
    ensures EscapeHtml("") == ""
  {
  }

  lemma UnescapedChar(c: char, rest: string)
    ensures Unescaped(EscapedChar(c) + rest) == [c] + Unescaped(rest)
  {
    var s := EscapedChar(c) + rest;
    if c == '&' {
      assert AMP <= s && s[5..] == rest;
    } else if c == '<' {
      assert s[1] == 'l' && LT <= s && s[4..] == rest;
    } else if c == '>' {
      assert s[1] == 'g' && GT <= s && s[4..] == rest;
    } else if c == '"' {
      assert s[1] == 'q' && QUOT <= s && s[6..] == rest;
    } else if c == '\'' {
      assert s[1] == '#' && APOS <= s && s[6..] == rest;
    } else {
      assert s[0] == c && s[1..] == rest;
    }
  }

  predicate IsMarkup(c: char) { c == '<' || c == '>' || c == '"' || c == '\'' }

  /** The five characters that are escaped, and what each becomes. */
  lemma EscapedCharIs(c: char)
    ensures EscapedChar(c) ==
      match c
      case '&' => "&amp;"
      case '<' => "&lt;"
      case '>' => "&gt;"
      case '"' => "&quot;"
      case '\'' => "&#x27;"
      case _ => [c]
  {
  }

  /** Escaped text holds no markup, and unescaping it gives the text back. */
  lemma {:induction false} EscapeRoundTrip(s: string)
    ensures Unescaped(EscapeHtml(s)) == s
    ensures forall i :: 0 <= i < |EscapeHtml(s)| ==> !IsMarkup(EscapeHtml(s)[i])
    decreases |s|
  {
    hide EscapeHtml, Unescaped, EscapedChar;
    EscapesOnce(s);
    if s == [] {
      UnescapedNothing();
    } else {
      EscapesOnce(s[1..]);
      EscapeRoundTrip(s[1..]);
      UnescapedChar(s[0], Escaped(s[1..]));
      NoMarkup(s[0]);
    }
  }

  lemma UnescapedNothing()
    ensures Unescaped("") == ""
  {
  }

  lemma NoMarkup(c: char)
    ensures forall i :: 0 <= i < |EscapedChar(c)| ==> !IsMarkup(EscapedChar(c)[i])
  {
  }

  // ..... The context .....

  /** The vocabularies a context can bring in, in the order in which it lists them. */
  datatype Extension = Security | Multikey | Schema | MovedTo

  const MOVED_TO := Obj(map["@id" := Str("as:movedTo"), "@type" := Str("@id")])

  /** The extensions of a sorted list without duplicates, which a set stands for. */
  function ContextWith(wanted: set<Extension>): Json {
    var terms := (if Schema in wanted
                  then map["schema" := Str(SCHEMA_NS), "PropertyValue" := Str("schema:PropertyValue"),
                           "value" := Str("schema:value")]
                  else map[])
               + (if MovedTo in wanted then map["movedTo" := MOVED_TO] else map[]);
    Arr([Str(AS_CONTEXT)]
        + (if Security in wanted then [Str(SECURITY_CONTEXT)] else [])
        + (if Multikey in wanted then [Str(MULTIKEY_CONTEXT)] else [])
        + [Obj(terms["noombat" := Str(NOOMBAT_NS)])])
  }

  predicate ListsContext(context: Json, url: string) {
    context.Arr? && Str(url) in context.items
  }

  predicate DeclaresTerm(context: Json, term: string) {
    context.Arr? && exists i :: 0 <= i < |context.items| && context.items[i].Obj? && term in context.items[i].fields
  }

  // ..... The document .....

  /** Anonymous, so that neither ownership nor a relationship can make it true. */
  predicate ChatmailShown(a: Actor) { a.chatmailVisible && a.chatmail.Some? }

  predicate HasAttachments(i: Inputs) {
    i.actor.orcid.Some? || ChatmailShown(i.actor) || i.links != []
  }

  predicate NeedsSchema(i: Inputs) {
    HasAttachments(i) || i.sections != [] || i.connections.Some?
  }

  function Wanted(i: Inputs): set<Extension> {
    {Security}
    + (if i.actor.ed25519.Some? then {Multikey} else {})
    + (if NeedsSchema(i) then {Schema} else {})
    + (if i.actor.movedTo.Some? then {MovedTo} else {})
  }

  type Fields = map<string, Json>

  function Strs(items: seq<string>): seq<Json> {
    seq(|items|, i requires 0 <= i < |items| => Str(items[i]))
  }

  function With(fields: Fields, key: string, value: Option<Json>): Fields {
    if value.Some? then fields[key := value.value] else fields
  }

  function StrOf(o: Option<string>): Option<Json> {
    if o.Some? then Some(Str(o.value)) else None
  }

  function AssertionMethod(a: Actor): (r: Option<Json>)
    ensures r.Some? <==> a.ed25519.Some?
  {
    if a.ed25519.None? then None
    else Some(Arr([Obj(map["id" := Str(a.apId + "#ed25519-key"), "type" := Str("Multikey"),
                           "controller" := Str(a.apId), "publicKeyMultibase" := Str(a.ed25519.value)])]))
  }

  function Image(url: Option<string>, alt: Option<string>): (r: Option<Json>)
    ensures r.Some? <==> url.Some?
  {
    if url.None? then None
    else Some(Obj(With(map["type" := Str("Image"), "url" := Str(url.value)], "name", StrOf(alt))))
  }

  function Base(i: Inputs): Fields {
    var id := i.actor.apId;
    map["@context" := ContextWith(Wanted(i)),
        "id" := Str(id), "type" := Str(i.actor.apType), "preferredUsername" := Str(i.actor.username),
        "url" := Str("https://" + i.domain + "/@" + i.actor.username),
        "inbox" := Str(id + "/inbox"), "outbox" := Str(id + "/outbox"),
        "followers" := Str(id + "/followers"), "following" := Str(id + "/following"),
        "endpoints" := Obj(map["sharedInbox" := Str("https://" + i.domain + "/inbox")]),
        "publicKey" := Obj(map["id" := Str(id + "#main-key"), "owner" := Str(id),
                               "publicKeyPem" := Str(i.actor.publicKeyPem)])]
  }

  function Aliases(aliases: seq<string>): Option<Json> {
    if aliases != [] then Some(Arr(Strs(aliases))) else None
  }

  /** Identity and key material, which every document carries; what is absent is left out. */
  function Identity(i: Inputs): Fields {
    var named := With(With(With(Base(i), "schema:knows", StrOf(i.connections)), "name", StrOf(i.actor.displayName)),
                      "summary", StrOf(i.actor.summary));
    var keyed := With(named, "assertionMethod", AssertionMethod(i.actor))[TTL := Number(i.ttl.GetOr(DEFAULT_TTL_SECS))];
    var moved := With(With(keyed, "movedTo", StrOf(i.actor.movedTo)), "alsoKnownAs", Aliases(i.aliases));
    With(With(moved, "icon", Image(i.actor.avatar, i.avatarAlt)), "image", Image(i.actor.header, None))
  }

  function PropertyValue(name: string, value: string): Json {
    Obj(map["type" := Str("PropertyValue"), "name" := Str(name), "value" := Str(value)])
  }

  function MeLink(name: string, href: string): Json {
    Obj(map["type" := Str("Link"), "name" := Str(name), "href" := Str(href), "rel" := Str("me")])
  }

  function Anchor(href: string, text: string): string {
    "<a href=\"" + href + "\" rel=\"me\">" + text + "</a>"
  }

  const ORCID_BASE := "https://orcid.org/"

  function LinkFields(links: seq<string>): seq<Json> {
    seq(|links|, i requires 0 <= i < |links| =>
      PropertyValue(links[i], Anchor(EscapeHtml(links[i]), EscapeHtml(links[i]))))
  }

  function MeLinks(links: seq<string>): seq<Json> {
    seq(|links|, i requires 0 <= i < |links| => MeLink(links[i], links[i]))
  }

  function Attachments(i: Inputs): seq<Json> {
    (match i.actor.orcid
     case Some(orcid) => [PropertyValue("ORCID", Anchor(ORCID_BASE + orcid, orcid))]
     case None => [])
    + (if ChatmailShown(i.actor) then [PropertyValue("Chat", i.actor.chatmail.value)] else [])
    + LinkFields(i.links)
    + (match i.actor.orcid
       case Some(orcid) => [MeLink("ORCID", ORCID_BASE + orcid)]
       case None => [])
    + MeLinks(i.links)
  }

  function PublicOf(sections: seq<Section>): seq<Section> {
    if sections == [] then []
    else (if sections[0].visibility == Public then [sections[0]] else []) + PublicOf(sections[1..])
  }

  function KeyOf(kind: string): string { "noombat:" + kind }

  /** The data of the sections whose property is `key`, in order. */
  function DataUnder(sections: seq<Section>, key: string): seq<Json> {
    if sections == [] then []
    else
      var n := |sections| - 1;
      DataUnder(sections[..n], key) + if KeyOf(sections[n].kind) == key then [sections[n].data] else []
  }

  function KeysOf(sections: seq<Section>): set<string> {
    set s | s in sections :: KeyOf(s.kind)
  }

  function SectionFields(sections: seq<Section>): Fields {
    map key | key in KeysOf(sections) :: Arr(DataUnder(sections, key))
  }

  function Document(i: Inputs): Fields {
    if !i.actor.federateProfile then Identity(i)
    else
      var attachments := Attachments(i);
      With(Identity(i), "attachment", if attachments != [] then Some(Arr(attachments)) else None)
      + SectionFields(PublicOf(i.sections))
  }

  // ..... The serialiser .....

  /** Adds a field that has a value, and nothing for one that has none. */
  method Put(fields: Fields, key: string, value: Option<Json>) returns (r: Fields)
    ensures r == With(fields, key, value)
  {
    r := fields;
    if value.Some? { r := r[key := value.value]; }
  }

  method BuildIdentity(i: Inputs) returns (obj: Fields)
    ensures obj == Identity(i)
  {
    hide Base, Image, AssertionMethod, With, Aliases, StrOf;
    obj := Base(i);
    obj := Put(obj, "schema:knows", StrOf(i.connections));
    obj := Put(obj, "name", StrOf(i.actor.displayName));
    obj := Put(obj, "summary", StrOf(i.actor.summary));
    obj := Put(obj, "assertionMethod", AssertionMethod(i.actor));
    obj := obj[TTL := Number(i.ttl.GetOr(DEFAULT_TTL_SECS))];
    obj := Put(obj, "movedTo", StrOf(i.actor.movedTo));
    obj := Put(obj, "alsoKnownAs", Aliases(i.aliases));
    obj := Put(obj, "icon", Image(i.actor.avatar, i.avatarAlt));
    obj := Put(obj, "image", Image(i.actor.header, None));
  }

  method BuildAttachments(i: Inputs) returns (attachments: seq<Json>)
    ensures attachments == Attachments(i)
  {
    hide Anchor, EscapeHtml, PropertyValue, MeLink, LinkFields, MeLinks;
    attachments := [];
    if i.actor.orcid.Some? {
      var orcid := i.actor.orcid.value;
      attachments := attachments + [PropertyValue("ORCID", Anchor(ORCID_BASE + orcid, orcid))];
    }
    if i.actor.chatmailVisible && i.actor.chatmail.Some? {
      attachments := attachments + [PropertyValue("Chat", i.actor.chatmail.value)];
    }
    ghost var first := attachments;
    NoLinks(i.links);
    assert first + [] == first;
    for k := 0 to |i.links|
      invariant attachments == first + LinkFields(i.links[..k])
    {
      var link := i.links[k];
      OneLink(i.links, k);
      attachments := attachments + [PropertyValue(link, Anchor(EscapeHtml(link), EscapeHtml(link)))];
    }
    assert i.links[..|i.links|] == i.links;
    if i.actor.orcid.Some? {
      attachments := attachments + [MeLink("ORCID", ORCID_BASE + i.actor.orcid.value)];
    }
    ghost var second := attachments;
    assert second + [] == second;
    for k := 0 to |i.links|
      invariant attachments == second + MeLinks(i.links[..k])
    {
      OneLink(i.links, k);
      attachments := attachments + [MeLink(i.links[k], i.links[k])];
    }
  }

  lemma NoLinks(links: seq<string>)
    ensures LinkFields(links[..0]) == [] && MeLinks(links[..0]) == []
  {
  }

  lemma OneLink(links: seq<string>, k: nat)
    requires k < |links|
    ensures LinkFields(links[..k + 1])
         == LinkFields(links[..k]) + [PropertyValue(links[k], Anchor(EscapeHtml(links[k]), EscapeHtml(links[k])))]
    ensures MeLinks(links[..k + 1]) == MeLinks(links[..k]) + [MeLink(links[k], links[k])]
  {
    hide Anchor, EscapeHtml, PropertyValue, MeLink;
  }

  /** Under each section property, the data of its sections in order. */
  method CollectSections(sections: seq<Section>) returns (collected: map<string, seq<Json>>)
    ensures collected.Keys == KeysOf(sections)
    ensures forall key :: key in collected ==> collected[key] == DataUnder(sections, key)
  {
    collected := map[];
    for n := 0 to |sections|
      invariant collected.Keys == KeysOf(sections[..n])
      invariant forall key :: key in collected ==> collected[key] == DataUnder(sections[..n], key)
    {
      var key := KeyOf(sections[n].kind);
      assert sections[..n + 1] == sections[..n] + [sections[n]];
      assert sections[..n + 1][..n] == sections[..n];
      if key !in collected {
        NoDataUnder(sections[..n], key);
        collected := collected[key := []];
      }
      collected := collected[key := collected[key] + [sections[n].data]];
    }
    assert sections[..|sections|] == sections;
  }

  lemma {:induction false} NoDataUnder(sections: seq<Section>, key: string)
    ensures DataUnder(sections, key) == [] <==> key !in KeysOf(sections)
    decreases |sections|
  {
    if sections != [] {
      var n := |sections| - 1;
      NoDataUnder(sections[..n], key);
      assert sections == sections[..n] + [sections[n]];
    }
  }

  /** Each collected array becomes a property of the document. */
  method MergeSections(obj: Fields, sections: seq<Section>, collected: map<string, seq<Json>>) returns (r: Fields)
    requires collected.Keys == KeysOf(sections)
    requires forall key :: key in collected ==> collected[key] == DataUnder(sections, key)
    ensures r == obj + SectionFields(sections)
  {
    hide KeysOf, DataUnder, Merged, SectionFields;
    r := obj;
    var rest := collected.Keys;
    NothingMerged(obj, collected);
    while rest != {}
      invariant rest <= collected.Keys
      invariant r == Merged(obj, collected, collected.Keys - rest)
      decreases |rest|
    {
      var key :| key in rest;
      OneMerged(obj, collected, collected.Keys - rest, key);
      assert collected.Keys - rest + {key} == collected.Keys - (rest - {key});
      rest := rest - {key};
      r := r[key := Arr(collected[key])];
    }
    assert collected.Keys - {} == collected.Keys;
    AllMerged(obj, collected, sections);
  }

  /** Build the document of a local actor. */
  method BuildFederatedActor(i: Inputs) returns (obj: Fields)
    ensures obj == Document(i)
  {
    hide Identity, Attachments, KeysOf, DataUnder, SectionFields;
    obj := BuildIdentity(i);
    // An account that withholds its profile ends here.
    if !i.actor.federateProfile { return; }
    var attachments := BuildAttachments(i);
    if attachments != [] { obj := obj["attachment" := Arr(attachments)]; }
    var public := PublicOf(i.sections);
    var collected := CollectSections(public);
    obj := MergeSections(obj, public, collected);
  }

  ghost function Merged(before: Fields, collected: map<string, seq<Json>>, done: set<string>): Fields
    requires done <= collected.Keys
  {
    before + map key | key in done :: Arr(collected[key])
  }

  lemma NothingMerged(before: Fields, collected: map<string, seq<Json>>)
    ensures Merged(before, collected, collected.Keys - collected.Keys) == before
  {
  }

  lemma OneMerged(before: Fields, collected: map<string, seq<Json>>, done: set<string>, key: string)
    requires done <= collected.Keys && key in collected
    ensures Merged(before, collected, done)[key := Arr(collected[key])] == Merged(before, collected, done + {key})
  {
  }

  lemma AllMerged(before: Fields, collected: map<string, seq<Json>>, sections: seq<Section>)
    requires collected.Keys == KeysOf(sections)
    requires forall key :: key in collected ==> collected[key] == DataUnder(sections, key)
    ensures Merged(before, collected, collected.Keys) == before + SectionFields(sections)
  {
    hide KeysOf, DataUnder;
  }

  // ..... Terms declared and terms used .....

  lemma ContextDeclares(wanted: set<Extension>)
    ensures var context := ContextWith(wanted);
      && (DeclaresTerm(context, "schema") <==> Schema in wanted)
      && (DeclaresTerm(context, "movedTo") <==> MovedTo in wanted)
      && (ListsContext(context, MULTIKEY_CONTEXT) <==> Multikey in wanted)
  {
    var context := ContextWith(wanted);
    var last := context.items[|context.items| - 1];
    assert last.Obj?;
    assert forall i :: 0 <= i < |context.items| && context.items[i].Obj? ==> i == |context.items| - 1;
    assert "schema" in last.fields <==> Schema in wanted;
    assert "movedTo" in last.fields <==> MovedTo in wanted;
    assert MULTIKEY_CONTEXT[9] == '3' && AS_CONTEXT[9] == 'w';
    assert |SECURITY_CONTEXT| != |MULTIKEY_CONTEXT|;
    if Multikey in wanted {
      var k := if Security in wanted then 2 else 1;
      assert context.items[k] == Str(MULTIKEY_CONTEXT);
    }
  }

  /** A key of the document that no section can set. */
  lemma SectionKeys(sections: seq<Section>, key: string)
    requires key in SectionFields(sections)
    ensures exists s :: s in sections && key == KeyOf(s.kind)
    ensures |key| >= 8 && key[7] == ':' && key[0] == 'n'
  {
    var s :| s in sections && KeyOf(s.kind) == key;
    assert "noombat:"[0] == 'n' && "noombat:"[7] == ':' && |"noombat:"| == 8;
  }

  predicate IsOwnKey(key: string) { |key| < 8 || key[7] != ':' || key[0] != 'n' }

  lemma OwnKeys()
    ensures IsOwnKey("@context") && IsOwnKey("attachment") && IsOwnKey("movedTo") && IsOwnKey("assertionMethod")
  {
    assert "@context"[0] == '@' && "attachment"[0] == 'a' && "movedTo"[0] == 'm' && "assertionMethod"[0] == 'a';
  }

  lemma OwnKeyKept(i: Inputs, key: string)
    requires IsOwnKey(key) && key != "attachment"
    ensures key in Document(i) <==> key in Identity(i)
    ensures key in Document(i) ==> Document(i)[key] == Identity(i)[key]
  {
    hide Identity, Attachments, SectionFields;
    if key in SectionFields(PublicOf(i.sections)) {
      SectionKeys(PublicOf(i.sections), key);
      assert false;
    }
  }

  lemma ContextOfIdentity(i: Inputs)
    ensures "@context" in Identity(i) && Identity(i)["@context"] == ContextWith(Wanted(i))
  {
    hide ContextWith, Wanted, Image, AssertionMethod, Aliases, StrOf;
    assert "@context" in Base(i) && Base(i)["@context"] == ContextWith(Wanted(i)) by { BaseContext(i); }
    hide Base;
    assert "@context"[0] == '@' && TTL[0] == 'n';
  }

  lemma BaseContext(i: Inputs)
    ensures "@context" in Base(i) && Base(i)["@context"] == ContextWith(Wanted(i))
  {
    hide ContextWith, Wanted;
  }

  const BASE_KEYS := {"@context", "id", "type", "preferredUsername", "url", "inbox", "outbox", "followers", "following",
                      "endpoints", "publicKey"}

  predicate StartsElsewhere(key: string) { key != [] && key[0] != 'n' && key[0] != 'm' && key[0] != 'a' }

  lemma BaseStarts(i: Inputs)
    ensures forall key :: key in Base(i) ==> StartsElsewhere(key)
  {
    hide ContextWith, Wanted;
    assert StartsElsewhere("@context") && StartsElsewhere("id") && StartsElsewhere("type");
    assert StartsElsewhere("preferredUsername") && StartsElsewhere("url") && StartsElsewhere("inbox");
    assert StartsElsewhere("outbox") && StartsElsewhere("followers");
    assert StartsElsewhere("following") && StartsElsewhere("endpoints") && StartsElsewhere("publicKey");
    hide StartsElsewhere;
    assert Base(i).Keys == BASE_KEYS;
  }

  lemma BaseKeys(i: Inputs)
    ensures "movedTo" !in Base(i) && "assertionMethod" !in Base(i) && "attachment" !in Base(i)
    ensures forall key :: key in Base(i) ==> IsOwnKey(key)
  {
    BaseStarts(i);
    hide Base;
    assert "movedTo"[0] == 'm' && "assertionMethod"[0] == 'a' && "attachment"[0] == 'a';
  }

  lemma KeysOfIdentity(i: Inputs)
    ensures "movedTo" in Identity(i) <==> i.actor.movedTo.Some?
    ensures "assertionMethod" in Identity(i) <==> i.actor.ed25519.Some?
    ensures "attachment" !in Identity(i)
  {
    hide Image, Aliases, Base, AssertionMethod;
    BaseKeys(i);
  }

  lemma TtlOfIdentity(i: Inputs)
    ensures TTL in Identity(i) && Identity(i)[TTL] == Number(i.ttl.GetOr(DEFAULT_TTL_SECS))
  {
    hide Image, Aliases, Base, AssertionMethod, StrOf;
    assert TTL[7] == ':' && |"movedTo"| == 7 && |"icon"| == 4 && |"image"| == 5 && "alsoKnownAs"[7] != ':';
  }

  lemma OwnKeysOfIdentity(i: Inputs, key: string)
    requires key in Identity(i)
    ensures key == TTL || IsOwnKey(key)
  {
    hide Image, Aliases, Base, AssertionMethod, StrOf;
    BaseKeys(i);
    assert "schema:knows"[0] == 's' && |"name"| == 4 && |"summary"| == 7 && "assertionMethod"[0] == 'a';
    assert |"movedTo"| == 7 && "alsoKnownAs"[0] == 'a' && |"icon"| == 4 && |"image"| == 5;
  }

  lemma ContextOfDocument(i: Inputs)
    ensures "@context" in Document(i) && Document(i)["@context"] == ContextWith(Wanted(i))
  {
    hide Identity, Document;
    OwnKeys();
    ContextOfIdentity(i);
    OwnKeyKept(i, "@context");
  }

  /** The Multikey terms and `movedTo` are declared exactly when they are used, and schema.org's terms
      whenever there is an attachment or a section. */
  lemma DeclaresWhatItCarries(i: Inputs)
    ensures var doc := Document(i);
      && "@context" in doc
      && (ListsContext(doc["@context"], MULTIKEY_CONTEXT) <==> "assertionMethod" in doc)
      && (DeclaresTerm(doc["@context"], "movedTo") <==> "movedTo" in doc)
      && ("attachment" in doc || (exists key :: key in doc && key !in Identity(i)) ==>
            DeclaresTerm(doc["@context"], "schema"))
  {
    hide Identity, ContextWith, ListsContext, DeclaresTerm;
    OwnKeys();
    ContextOfDocument(i);
    ContextDeclares(Wanted(i));
    KeysOfIdentity(i);
    OwnKeyKept(i, "movedTo");
    OwnKeyKept(i, "assertionMethod");
    if !NeedsSchema(i) {
      assert Attachments(i) == [];
      assert PublicOf(i.sections) == [] && SectionFields([]) == map[];
    }
  }

  // ..... What it can reveal .....

  /** All that may show: with the profile withheld, nothing of the ORCID, the chat address, the links
      and the sections; otherwise the chat address if it is visible, and the public sections. */
  function Showable(i: Inputs): Inputs {
    if i.actor.federateProfile then
      i.(actor := i.actor.(chatmail := if i.actor.chatmailVisible then i.actor.chatmail else None,
                           chatmailVisible := true),
         sections := PublicOf(i.sections))
    else
      i.(actor := i.actor.(orcid := None, chatmail := None, chatmailVisible := true), sections := [], links := [])
  }

  lemma SameIdentity(a: Inputs, b: Inputs)
    requires Showable(a) == Showable(b) && NeedsSchema(a) == NeedsSchema(b)
    ensures Identity(a) == Identity(b)
  {
    hide ContextWith, Image, Aliases, StrOf;
    assert Wanted(a) == Wanted(b);
  }

  lemma SameAttachments(a: Inputs, b: Inputs)
    requires Showable(a) == Showable(b) && a.actor.federateProfile
    ensures Attachments(a) == Attachments(b)
  {
    hide PropertyValue, Anchor, MeLink, LinkFields, MeLinks;
  }

  /** Two accounts that differ in nothing that may show are served as the same document exactly when
      they agree on needing the schema.org terms. That one bit is all that the rest can reveal. */
  lemma OnlyShowablePartShows(a: Inputs, b: Inputs)
    requires Showable(a) == Showable(b)
    ensures Document(a) == Document(b) <==> NeedsSchema(a) == NeedsSchema(b)
  {
    if NeedsSchema(a) == NeedsSchema(b) {
      hide Identity, Attachments, NeedsSchema, SectionFields;
      SameIdentity(a, b);
      if a.actor.federateProfile { SameAttachments(a, b); }
    } else {
      hide Document, NeedsSchema, ContextWith, DeclaresTerm, Showable;
      ContextOfDocument(a);
      ContextOfDocument(b);
      ContextDeclares(Wanted(a));
      ContextDeclares(Wanted(b));
    }
  }

  // ..... Sections .....

  /** The data of the public sections of one type, in order. */
  function PublicData(sections: seq<Section>, kind: string): seq<Json> {
    if sections == [] then []
    else
      (if sections[0].visibility == Public && sections[0].kind == kind then [sections[0].data] else [])
      + PublicData(sections[1..], kind)
  }

  lemma {:induction false} DataUnderFirst(first: Section, rest: seq<Section>, key: string)
    ensures DataUnder([first] + rest, key)
         == (if KeyOf(first.kind) == key then [first.data] else []) + DataUnder(rest, key)
    decreases |rest|
  {
    var all := [first] + rest;
    if rest == [] {
      assert all[..0] == [];
    } else {
      var n := |rest| - 1;
      DataUnderFirst(first, rest[..n], key);
      assert all[..n + 1] == [first] + rest[..n];
    }
  }

  lemma KeysDiffer(a: string, b: string)
    ensures KeyOf(a) == KeyOf(b) <==> a == b
  {
    assert KeyOf(a)[8..] == a && KeyOf(b)[8..] == b;
  }

  lemma {:induction false} DataUnderIs(sections: seq<Section>, kind: string)
    ensures DataUnder(PublicOf(sections), KeyOf(kind)) == PublicData(sections, kind)
    decreases |sections|
  {
    hide KeyOf, DataUnder;
    if sections == [] {
      NoDataUnder([], KeyOf(kind));
    } else {
      var first, rest := sections[0], sections[1..];
      DataUnderIs(rest, kind);
      KeysDiffer(first.kind, kind);
      if first.visibility == Public {
        DataUnderFirst(first, PublicOf(rest), KeyOf(kind));
      } else {
        assert [] + PublicOf(rest) == PublicOf(rest);
      }
    }
  }

  /** For every type of section: its property holds the data of the public sections of that type, all
      of them and in order; and with none the property is absent, except that the type `ttl` shares
      its name with the lifetime hint. */
  lemma SectionArrays(i: Inputs, kind: string)
    requires i.actor.federateProfile
    ensures var doc, data := Document(i), PublicData(i.sections, kind);
      if data != [] then KeyOf(kind) in doc && doc[KeyOf(kind)] == Arr(data)
      else KeyOf(kind) in doc ==> kind == "ttl"
  {
    hide Identity, Attachments, DataUnder, KeysOf;
    var public, key := PublicOf(i.sections), KeyOf(kind);
    DataUnderIs(i.sections, kind);
    NoDataUnder(public, key);
    if PublicData(i.sections, kind) == [] && key in Document(i) {
      assert key[0] == "noombat:"[0] && key[7] == "noombat:"[7] && key != "attachment";
      assert key in Identity(i);
      OwnKeysOfIdentity(i, key);
      assert key[8..] == kind && TTL[8..] == "ttl";
    }
  }

  /** The lifetime hint survives exactly when no public section is of the type `ttl`. */
  lemma TtlKeptIff(i: Inputs)
    ensures "noombat:ttl" in Document(i)
    ensures Document(i)["noombat:ttl"] == Number(if i.ttl == None then "604800" else i.ttl.value)
        <==> !i.actor.federateProfile || PublicData(i.sections, "ttl") == []
  {
    hide Identity, Attachments, DataUnder, KeysOf;
    TtlOfIdentity(i);
    assert TTL == KeyOf("ttl") && TTL != "attachment";
    if i.actor.federateProfile {
      SectionArrays(i, "ttl");
      DataUnderIs(i.sections, "ttl");
      NoDataUnder(PublicOf(i.sections), TTL);
    }
  }

  // ..... What each property holds .....

  predicate Holds(doc: Fields, key: string, value: Json) { key in doc && doc[key] == value }

  /** The property is there exactly when there is something to hold. */
  predicate HoldsIf(doc: Fields, key: string, there: bool, value: Json) {
    (key in doc <==> there) && (there ==> doc[key] == value)
  }

  predicate HoldsText(doc: Fields, key: string, text: Option<string>) {
    HoldsIf(doc, key, text.Some?, Str(text.GetOr("")))
  }

  /** A key unlike those that are added to the first ones. */
  predicate IsFirstKey(key: string) {
    key != "" && key[0] !in {'s', 'n', 'a', 'm'} && (key[0] == 'i' ==> |key| == 2 || (|key| > 2 && key[1] == 'n'))
  }

  function Lookup(fields: Fields, key: string): Option<Json> {
    if key in fields then Some(fields[key]) else None
  }

  lemma WithLookup(fields: Fields, key: string, value: Option<Json>, k: string)
    ensures Lookup(With(fields, key, value), k) == if k == key && value.Some? then value else Lookup(fields, k)
  {
  }

  /** What an identity says under a key: the last of the properties added under it, or else what was
      there first. */
  lemma IdentityLookup(i: Inputs, k: string)
    ensures Lookup(Identity(i), k) ==
      if k == "image" && i.actor.header.Some? then Image(i.actor.header, None)
      else if k == "icon" && i.actor.avatar.Some? then Image(i.actor.avatar, i.avatarAlt)
      else if k == "alsoKnownAs" && Aliases(i.aliases).Some? then Aliases(i.aliases)
      else if k == "movedTo" && i.actor.movedTo.Some? then StrOf(i.actor.movedTo)
      else if k == TTL then Some(Number(i.ttl.GetOr(DEFAULT_TTL_SECS)))
      else if k == "assertionMethod" && i.actor.ed25519.Some? then AssertionMethod(i.actor)
      else if k == "summary" && i.actor.summary.Some? then StrOf(i.actor.summary)
      else if k == "name" && i.actor.displayName.Some? then StrOf(i.actor.displayName)
      else if k == "schema:knows" && i.connections.Some? then StrOf(i.connections)
      else Lookup(Base(i), k)
  {
    hide With, Base, Image, AssertionMethod, Aliases;
    var a := i.actor;
    var f0 := Base(i);
    var f1 := With(f0, "schema:knows", StrOf(i.connections));
    var f2 := With(f1, "name", StrOf(a.displayName));
    var f3 := With(f2, "summary", StrOf(a.summary));
    var f4 := With(f3, "assertionMethod", AssertionMethod(a));
    var f5 := f4[TTL := Number(i.ttl.GetOr(DEFAULT_TTL_SECS))];
    var f6 := With(f5, "movedTo", StrOf(a.movedTo));
    var f7 := With(f6, "alsoKnownAs", Aliases(i.aliases));
    var f8 := With(f7, "icon", Image(a.avatar, i.avatarAlt));
    WithLookup(f0, "schema:knows", StrOf(i.connections), k);
    WithLookup(f1, "name", StrOf(a.displayName), k);
    WithLookup(f2, "summary", StrOf(a.summary), k);
    WithLookup(f3, "assertionMethod", AssertionMethod(a), k);
    WithLookup(f5, "movedTo", StrOf(a.movedTo), k);
    WithLookup(f6, "alsoKnownAs", Aliases(i.aliases), k);
    WithLookup(f7, "icon", Image(a.avatar, i.avatarAlt), k);
    WithLookup(f8, "image", Image(a.header, None), k);
  }

  lemma FirstKeyKept(i: Inputs, key: string)
    requires IsFirstKey(key)
    ensures key in Identity(i) <==> key in Base(i)
    ensures key in Base(i) ==> Identity(i)[key] == Base(i)[key]
  {
    hide Identity, Base, Image, AssertionMethod, Aliases, StrOf;
    IdentityLookup(i, key);
    AddedKeys();
    assert TTL[0] == 'n';
  }

  lemma FirstFieldIs(i: Inputs, key: string, value: Json)
    requires IsFirstKey(key) && IsOwnKey(key) && Holds(Base(i), key, value)
    ensures Holds(Document(i), key, value)
  {
    hide Base, Identity, Document;
    FirstKeyKept(i, key);
    assert "attachment"[0] == 'a';
    OwnKeyKept(i, key);
  }

  lemma AddedKeys()
    ensures !IsFirstKey("schema:knows") && !IsFirstKey("name") && !IsFirstKey("summary") && !IsFirstKey("movedTo")
    ensures !IsFirstKey("assertionMethod") && !IsFirstKey("alsoKnownAs") && !IsFirstKey("icon") && !IsFirstKey("image")
    ensures !IsFirstKey(TTL)
  {
    assert "icon"[1] == 'c' && "image"[1] == 'm' && TTL[0] == 'n';
  }

  /** Every document names the actor and the places that belong to it, and carries its public key. */
  lemma CarriesIdentity(i: Inputs)
    ensures var doc, a := Document(i), i.actor;
      && Holds(doc, "id", Str(a.apId)) && Holds(doc, "type", Str(a.apType))
      && Holds(doc, "preferredUsername", Str(a.username))
      && Holds(doc, "url", Str("https://" + i.domain + "/@" + a.username))
      && Holds(doc, "inbox", Str(a.apId + "/inbox")) && Holds(doc, "outbox", Str(a.apId + "/outbox"))
      && Holds(doc, "followers", Str(a.apId + "/followers")) && Holds(doc, "following", Str(a.apId + "/following"))
      && Holds(doc, "endpoints", Obj(map["sharedInbox" := Str("https://" + i.domain + "/inbox")]))
      && Holds(doc, "publicKey", Obj(map["id" := Str(a.apId + "#main-key"), "owner" := Str(a.apId),
                                         "publicKeyPem" := Str(a.publicKeyPem)]))
  {
    hide Document, Base;
    var a := i.actor;
    BaseHolds(i);
    BaseHoldsPlaces(i);
    BaseHoldsRest(i);
    FirstKeys();
    FirstFieldIs(i, "id", Str(a.apId));
    FirstFieldIs(i, "type", Str(a.apType));
    FirstFieldIs(i, "preferredUsername", Str(a.username));
    FirstFieldIs(i, "url", Str("https://" + i.domain + "/@" + a.username));
    FirstFieldIs(i, "inbox", Str(a.apId + "/inbox"));
    FirstFieldIs(i, "outbox", Str(a.apId + "/outbox"));
    FirstFieldIs(i, "followers", Str(a.apId + "/followers"));
    FirstFieldIs(i, "following", Str(a.apId + "/following"));
    FirstFieldIs(i, "endpoints", Obj(map["sharedInbox" := Str("https://" + i.domain + "/inbox")]));
    FirstFieldIs(i, "publicKey", Obj(map["id" := Str(a.apId + "#main-key"), "owner" := Str(a.apId),
                                         "publicKeyPem" := Str(a.publicKeyPem)]));
  }

  lemma BaseHolds(i: Inputs)
    ensures var doc, a := Base(i), i.actor;
      && Holds(doc, "id", Str(a.apId)) && Holds(doc, "type", Str(a.apType))
      && Holds(doc, "preferredUsername", Str(a.username))
      && Holds(doc, "url", Str("https://" + i.domain + "/@" + a.username))
  {
    hide ContextWith, Wanted;
  }

  lemma BaseHoldsPlaces(i: Inputs)
    ensures var doc, a := Base(i), i.actor;
      && Holds(doc, "inbox", Str(a.apId + "/inbox")) && Holds(doc, "outbox", Str(a.apId + "/outbox"))
      && Holds(doc, "followers", Str(a.apId + "/followers"))
  {
    hide ContextWith, Wanted;
    assert "followers"[6] == 'e' && "following"[6] == 'i' && "followers"[0] == 'f';
    assert "endpoints"[0] == 'e' && "publicKey"[0] == 'p';
  }

  lemma BaseHoldsRest(i: Inputs)
    ensures var doc, a := Base(i), i.actor;
      && Holds(doc, "following", Str(a.apId + "/following"))
      && Holds(doc, "endpoints", Obj(map["sharedInbox" := Str("https://" + i.domain + "/inbox")]))
      && Holds(doc, "publicKey", Obj(map["id" := Str(a.apId + "#main-key"), "owner" := Str(a.apId),
                                         "publicKeyPem" := Str(a.publicKeyPem)]))
  {
    hide ContextWith, Wanted;
    assert "following"[0] == 'f' && "endpoints"[0] == 'e' && "publicKey"[0] == 'p';
  }

  lemma FirstKeys()
    ensures IsFirstKey("id") && IsOwnKey("id") && IsFirstKey("type") && IsOwnKey("type")
    ensures IsFirstKey("preferredUsername") && IsOwnKey("preferredUsername") && IsFirstKey("url") && IsOwnKey("url")
    ensures IsFirstKey("inbox") && IsOwnKey("inbox") && IsFirstKey("outbox") && IsOwnKey("outbox")
    ensures IsFirstKey("followers") && IsOwnKey("followers") && IsFirstKey("following") && IsOwnKey("following")
    ensures IsFirstKey("endpoints") && IsOwnKey("endpoints") && IsFirstKey("publicKey") && IsOwnKey("publicKey")
  {
    assert "preferredUsername"[0] == 'p' && "followers"[0] == 'f' && "following"[0] == 'f';
    assert "endpoints"[0] == 'e' && "publicKey"[0] == 'p' && "inbox"[1] == 'n';
  }

  /** The actor's Ed25519 key, as it is published. */
  function Key(a: Actor): Json {
    Arr([Obj(map["id" := Str(a.apId + "#ed25519-key"), "type" := Str("Multikey"), "controller" := Str(a.apId),
                 "publicKeyMultibase" := Str(a.ed25519.GetOr(""))])])
  }

  /** A picture, under its description when it has one. */
  function Picture(url: string, alt: Option<string>): Json {
    Obj(if alt == None then map["type" := Str("Image"), "url" := Str(url)]
        else map["type" := Str("Image"), "url" := Str(url), "name" := Str(alt.value)])
  }

  /** The rest of the identity is there exactly as far as the actor has it, and never as a null. */
  lemma CarriesOptional(i: Inputs)
    ensures var doc, a := Document(i), i.actor;
      && HoldsText(doc, "schema:knows", i.connections) && HoldsText(doc, "name", a.displayName)
      && HoldsText(doc, "summary", a.summary) && HoldsText(doc, "movedTo", a.movedTo)
      && HoldsIf(doc, "assertionMethod", a.ed25519.Some?, Key(a))
      && HoldsIf(doc, "alsoKnownAs", i.aliases != [], Arr(Strs(i.aliases)))
      && HoldsIf(doc, "icon", a.avatar.Some?, Picture(a.avatar.GetOr(""), i.avatarAlt))
      && HoldsIf(doc, "image", a.header.Some?, Picture(a.header.GetOr(""), None))
  {
    hide Document, Identity, Key, Picture, Strs;
    OptionalOfIdentity(i);
    OptionalKeys();
    OwnKeyKept(i, "schema:knows");
    OwnKeyKept(i, "name");
    OwnKeyKept(i, "summary");
    OwnKeyKept(i, "movedTo");
    OwnKeyKept(i, "assertionMethod");
    OwnKeyKept(i, "alsoKnownAs");
    OwnKeyKept(i, "icon");
    OwnKeyKept(i, "image");
  }

  lemma OptionalKeys()
    ensures IsOwnKey("schema:knows") && IsOwnKey("name") && IsOwnKey("summary") && IsOwnKey("movedTo")
    ensures IsOwnKey("assertionMethod") && IsOwnKey("alsoKnownAs") && IsOwnKey("icon") && IsOwnKey("image")
    ensures "attachment" !in {"schema:knows", "name", "summary", "movedTo", "assertionMethod", "alsoKnownAs", "icon",
                              "image"}
  {
    assert "schema:knows"[0] == 's' && "assertionMethod"[0] == 'a' && "assertionMethod"[7] == 'o';
    assert "alsoKnownAs"[0] == 'a' && |"attachment"| == 10;
  }

  lemma OptionalOfIdentity(i: Inputs)
    ensures var doc, a := Identity(i), i.actor;
      && HoldsText(doc, "schema:knows", i.connections) && HoldsText(doc, "name", a.displayName)
      && HoldsText(doc, "summary", a.summary) && HoldsText(doc, "movedTo", a.movedTo)
      && HoldsIf(doc, "assertionMethod", a.ed25519.Some?, Key(a))
      && HoldsIf(doc, "alsoKnownAs", i.aliases != [], Arr(Strs(i.aliases)))
      && HoldsIf(doc, "icon", a.avatar.Some?, Picture(a.avatar.GetOr(""), i.avatarAlt))
      && HoldsIf(doc, "image", a.header.Some?, Picture(a.header.GetOr(""), None))
  {
    hide Identity, Base, Strs, Image, AssertionMethod;
    NoBaseKeys(i);
    AddedKeys();
    KeysApart();
    IdentityLookup(i, "schema:knows");
    IdentityLookup(i, "name");
    IdentityLookup(i, "summary");
    IdentityLookup(i, "movedTo");
    IdentityLookup(i, "assertionMethod");
    IdentityLookup(i, "alsoKnownAs");
    IdentityLookup(i, "icon");
    IdentityLookup(i, "image");
    KeyIs(i.actor);
    PictureIs(i.actor.avatar, i.avatarAlt);
    PictureIs(i.actor.header, None);
  }

  // The names that are added differ in their length or their first letter.
  lemma KeysApart()
    ensures var keys := ["schema:knows", "name", "summary", "movedTo", "assertionMethod", "alsoKnownAs", "icon",
                         "image", TTL];
      forall j, k :: 0 <= j < k < |keys| ==> keys[j] != keys[k]
  {
    assert "name"[0] == 'n' && "icon"[0] == 'i' && "summary"[0] == 's' && "movedTo"[0] == 'm';
    assert TTL[0] == 'n' && "alsoKnownAs"[0] == 'a';
  }

  lemma KeyIs(a: Actor)
    ensures a.ed25519.Some? ==> AssertionMethod(a) == Some(Key(a))
  {
  }

  lemma PictureIs(url: Option<string>, alt: Option<string>)
    ensures url.Some? ==> Image(url, alt) == Some(Picture(url.value, alt))
  {
  }

  lemma NoBaseKeys(i: Inputs)
    ensures forall key :: key in Base(i) ==> IsFirstKey(key)
  {
    hide ContextWith, Wanted;
    FirstKeys();
    assert IsFirstKey("@context");
    hide IsFirstKey;
    assert Base(i).Keys == BASE_KEYS;
  }

  /** The document carries an attachment, a section or a connections link, or its actor has one that is
      withheld. */
  predicate UsesSchema(i: Inputs) {
    || i.actor.orcid != None || (i.actor.chatmailVisible && i.actor.chatmail != None) || i.links != []
    || i.sections != [] || i.connections != None
  }

  /** The terms that a context defines itself. */
  ghost predicate DefinesTerms(terms: Fields, schema: bool, moved: bool) {
    && terms.Keys == {"noombat"} + (if schema then {"schema", "PropertyValue", "value"} else {})
                     + (if moved then {"movedTo"} else {})
    && terms["noombat"] == Str("https://noombat.org/ns#")
    && (schema ==>
          && terms["schema"] == Str("http://schema.org#")
          && terms["PropertyValue"] == Str("schema:PropertyValue") && terms["value"] == Str("schema:value"))
    && (moved ==> terms["movedTo"] == Obj(map["@id" := Str("as:movedTo"), "@type" := Str("@id")]))
  }

  /** The context lists the vocabularies the document needs, in their order, and then its own terms. */
  lemma ContextIs(i: Inputs)
    ensures "@context" in Document(i) && Document(i)["@context"].Arr?
    ensures var items := Document(i)["@context"].items;
      && items != [] && items[|items| - 1].Obj?
      && items[..|items| - 1] ==
           [Str("https://www.w3.org/ns/activitystreams"), Str("https://w3id.org/security/v1")]
           + (if i.actor.ed25519 != None then [Str("https://w3id.org/security/multikey/v1")] else [])
      && DefinesTerms(items[|items| - 1].fields, UsesSchema(i), i.actor.movedTo != None)
  {
    hide Document, DefinesTerms;
    ContextOfDocument(i);
    WantedIs(i);
    var wanted := Wanted(i);
    TermsAre(wanted);
    var items := ContextWith(wanted).items;
    var n := if Multikey in wanted then 3 else 2;
    assert |items| == n + 1;
  }

  lemma WantedIs(i: Inputs)
    ensures var w := Wanted(i);
      && Security in w && (Multikey in w <==> i.actor.ed25519 != None)
      && (Schema in w <==> UsesSchema(i)) && (MovedTo in w <==> i.actor.movedTo != None)
  {
  }

  lemma TermsAre(wanted: set<Extension>)
    ensures var items := ContextWith(wanted).items;
      && items != [] && items[|items| - 1].Obj?
      && DefinesTerms(items[|items| - 1].fields, Schema in wanted, MovedTo in wanted)
  {
    assert "noombat"[0] == 'n' && "movedTo"[0] == 'm';
  }

  predicate IsField(j: Json, name: string, value: string) {
    && j.Obj? && j.fields.Keys == {"type", "name", "value"}
    && j.fields["type"] == Str("PropertyValue") && j.fields["name"] == Str(name) && j.fields["value"] == Str(value)
  }

  predicate IsMeLink(j: Json, name: string, href: string) {
    && j.Obj? && j.fields.Keys == {"type", "name", "href", "rel"}
    && j.fields["type"] == Str("Link") && j.fields["rel"] == Str("me")
    && j.fields["name"] == Str(name) && j.fields["href"] == Str(href)
  }

  lemma FieldIs(name: string, value: string)
    ensures IsField(PropertyValue(name, value), name, value)
  {
    assert "type"[0] == 't' && "name"[0] == 'n';
  }

  lemma MeLinkIs(name: string, href: string)
    ensures IsMeLink(MeLink(name, href), name, href)
  {
    assert "type"[0] == 't' && "name"[0] == 'n' && "href"[0] == 'h';
  }

  /** What the attachments are, place by place: the ORCID, the chat address if it is visible, and each
      link, escaped, as fields that every reader shows, and then the ORCID and each link as links. */
  predicate AttachmentsAre(i: Inputs, items: seq<Json>) {
    var o, c, n := if i.actor.orcid != None then 1 else 0,
                   if i.actor.chatmailVisible && i.actor.chatmail != None then 1 else 0, |i.links|;
    && |items| == o + c + n + o + n
    && (i.actor.orcid.Some? ==>
          var url := "https://orcid.org/" + i.actor.orcid.value;
          && IsField(items[0], "ORCID", "<a href=\"" + url + "\" rel=\"me\">" + i.actor.orcid.value + "</a>")
          && IsMeLink(items[o + c + n], "ORCID", url))
    && (c == 1 ==> IsField(items[o], "Chat", i.actor.chatmail.value))
    && (forall k :: 0 <= k < n ==>
          && IsField(items[o + c + k], i.links[k],
                     "<a href=\"" + Escaped(i.links[k]) + "\" rel=\"me\">" + Escaped(i.links[k]) + "</a>")
          && IsMeLink(items[o + c + n + o + k], i.links[k], i.links[k]))
  }

  lemma AttachmentsHold(i: Inputs)
    ensures AttachmentsAre(i, Attachments(i))
  {
    hide PropertyValue, MeLink, EscapeHtml, Escaped, IsField, IsMeLink;
    var items := Attachments(i);
    var o, c, n := if i.actor.orcid != None then 1 else 0,
                   if i.actor.chatmailVisible && i.actor.chatmail != None then 1 else 0, |i.links|;
    if i.actor.orcid.Some? {
      var orcid := i.actor.orcid.value;
      FieldIs("ORCID", Anchor("https://orcid.org/" + orcid, orcid));
      MeLinkIs("ORCID", "https://orcid.org/" + orcid);
      assert items[0] == PropertyValue("ORCID", Anchor(ORCID_BASE + orcid, orcid));
    }
    if c == 1 { FieldIs("Chat", i.actor.chatmail.value); }
    forall k | 0 <= k < n
      ensures IsField(items[o + c + k], i.links[k],
                      "<a href=\"" + Escaped(i.links[k]) + "\" rel=\"me\">" + Escaped(i.links[k]) + "</a>")
      ensures IsMeLink(items[o + c + n + o + k], i.links[k], i.links[k])
    {
      EscapesOnce(i.links[k]);
      FieldIs(i.links[k], Anchor(EscapeHtml(i.links[k]), EscapeHtml(i.links[k])));
      MeLinkIs(i.links[k], i.links[k]);
      assert items[o + c + k] == LinkFields(i.links)[k];
      assert items[o + c + n + o + k] == MeLinks(i.links)[k];
    }
  }

  /** There is an attachment exactly when the profile is federated and has something to attach. */
  lemma CarriesAttachments(i: Inputs)
    ensures var doc, a := Document(i), i.actor;
      && ("attachment" in doc <==>
            a.federateProfile && (a.orcid != None || (a.chatmailVisible && a.chatmail != None) || i.links != []))
      && ("attachment" in doc ==> doc["attachment"].Arr? && AttachmentsAre(i, doc["attachment"].items))
  {
    hide Identity, Attachments, SectionFields;
    AttachmentsHold(i);
    assert |Attachments(i)| > 0 <==> HasAttachments(i);
    hide AttachmentsAre;
    KeysOfIdentity(i);
    assert "attachment"[0] == 'a';
    if i.actor.federateProfile && "attachment" in SectionFields(PublicOf(i.sections)) {
      SectionKeys(PublicOf(i.sections), "attachment");
    }
  }
}
