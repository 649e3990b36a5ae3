/** FEP-8b32 integrity proofs with the eddsa-jcs-2022 suite: what is signed, and what is checked. */
module IntegrityProof {
  import opened Wrappers
  import opened Jsons

  type Bytes = seq<int>

  /** The library code a proof is made of, as parameters. */
  datatype Env = Env(
    jcs: Json -> Option<Bytes>,
    sha256: Bytes -> Bytes,
    publicKey: Bytes -> Bytes,
    validKey: Bytes -> bool,
    signature: (Bytes, Bytes) -> Bytes,
    verifies: (Bytes, Bytes, Bytes) -> bool,
    encode58: Bytes -> string,
    decode58: string -> Option<Bytes>,
    size: Json -> nat,
    parseTime: string -> Option<int>)

  const CRYPTOSUITE := "eddsa-jcs-2022"
  const PROOF_TYPE := "DataIntegrityProof"
  const PROOF_PURPOSE := "assertionMethod"
  const DATA_INTEGRITY_CONTEXT := "https://w3id.org/security/data-integrity/v1"
  const MAX_PROOF_DOCUMENT_BYTES := 1024 * 1024
  /** Five minutes, in the nanoseconds times are given in. */
  const CREATED_SKEW_TOLERANCE := 300_000_000_000

  const DI := Str(DATA_INTEGRITY_CONTEXT)

  // ..... The context .....

  /** What an existing `@context` becomes. */
  function NewContext(context: Json): Json {
    match context
    case Arr(items) => if DI in items then context else Arr(items + [DI])
    case _ => Arr([context, DI])
  }

  /** A document with the Data Integrity context in it. Assigning a key turns a null into an object
      and panics on any other value that is not one, which is the absent case here. */
  function WithContext(j: Json): Option<Json> {
    match j
    case Obj(fields) =>
      Some(Obj(fields["@context" := if "@context" in fields then NewContext(fields["@context"]) else Arr([DI])]))
    case Null => Some(Obj(map["@context" := Arr([DI])]))
    case _ => None
  }

  // ..... Signing .....

  datatype SignError = Panicked | NotCanonicalisable

  type Config = map<string, Json>

  /** The bytes that are signed: the configuration's hash, then the document's. */
  function SigningInput(env: Env, config: Config, unsigned: Config): Option<Bytes> {
    var doc, proof := env.jcs(Obj(unsigned)), env.jcs(Obj(config));
    if doc.None? || proof.None? then None
    else Some(env.sha256(proof.value) + env.sha256(doc.value))
  }

  function Multibase(env: Env, bytes: Bytes): string { "z" + env.encode58(bytes) }

  /** The proof object embedded for a document whose unsigned fields are `unsigned`. */
  function ProofFor(env: Env, unsigned: Config, key: Bytes, config: Config): Option<Json>
    requires "@context" in unsigned
  {
    match SigningInput(env, config["@context" := unsigned["@context"]], unsigned)
    case None => None
    case Some(input) =>
      var value := Str(Multibase(env, env.signature(key, input)));
      Some(Obj(config["proofValue" := value] - {"@context"}))
  }

  function Unsigned(j: Json): Config
    requires j.Obj?
  {
    j.fields - {"proof"}
  }

  /** A document signed under a configuration. */
  function Signed(env: Env, activity: Json, key: Bytes, config: Config): Result<Json, SignError> {
    match WithContext(activity)
    case None => Err(Panicked)
    case Some(doc) =>
      match ProofFor(env, Unsigned(doc), key, config)
      case None => Err(NotCanonicalisable)
      case Some(proof) => Ok(Obj(doc.fields["proof" := proof]))
  }

  /** The configuration the signer makes. */
  function SignerConfig(method_: string, created: string): Config {
    map["type" := Str(PROOF_TYPE), "cryptosuite" := Str(CRYPTOSUITE), "verificationMethod" := Str(method_),
        "proofPurpose" := Str(PROOF_PURPOSE), "created" := Str(created)]
  }

  class Activity {
    var value: Json

    constructor (value: Json)
      ensures this.value == value
    {
      this.value := value;
    }

    /** Brings the context to what `WithContext` says, or panics, which false stands for. */
    method EnsureDataIntegrityContext() returns (ok: bool)
      modifies this
      ensures ok <==> WithContext(old(value)).Some?
      ensures value == if ok then WithContext(old(value)).value else old(value)
    {
      if value.Null? { value := Obj(map[]); }
      if !value.Obj? { return false; }
      if "@context" !in value.fields {
        value := Obj(value.fields["@context" := Arr([DI])]);
        return true;
      }
      var context := value.fields["@context"];
      if context.Arr? {
        if DI !in context.items {
          value := Obj(value.fields["@context" := Arr(context.items + [DI])]);
        } else {
          assert value.fields["@context" := context] == value.fields;
        }
      } else {
        value := Obj(value.fields["@context" := Arr([context, DI])]);
      }
      ok := true;
    }

    /** Attach a proof in place. A document that cannot be canonicalised keeps the context added. */
    method SignWithConfig(env: Env, key: Bytes, config: Config) returns (r: Result<(), SignError>)
      modifies this
      ensures match Signed(env, old(value), key, config)
              case Ok(signed) => r.Ok? && value == signed
              case Err(e) => r == Err(e) && value == WithContext(old(value)).GetOr(old(value))
    {
      var ok := EnsureDataIntegrityContext();
      if !ok { return Err(Panicked); }
      var unsigned := value.fields - {"proof"};
      var proofConfig := config;
      if "@context" in unsigned {
        proofConfig := proofConfig["@context" := unsigned["@context"]];
      }
      var doc, conf := env.jcs(Obj(unsigned)), env.jcs(Obj(proofConfig));
      if doc.None? || conf.None? { return Err(NotCanonicalisable); }
      var input := env.sha256(conf.value) + env.sha256(doc.value);
      var signature := env.signature(key, input);
      proofConfig := proofConfig["proofValue" := Str("z" + env.encode58(signature))];
      proofConfig := proofConfig - {"@context"};
      assert proofConfig == config["proofValue" := Str("z" + env.encode58(signature))] - {"@context"};
      value := Obj(value.fields["proof" := Obj(proofConfig)]);
      r := Ok(());
    }

    method Sign(env: Env, key: Bytes, method_: string, created: string) returns (r: Result<(), SignError>)
      modifies this
      ensures match Signed(env, old(value), key, SignerConfig(method_, created))
              case Ok(signed) => r.Ok? && value == signed
              case Err(e) => r == Err(e) && value == WithContext(old(value)).GetOr(old(value))
    {
      r := SignWithConfig(env, key, SignerConfig(method_, created));
    }
  }

  // ..... Verifying .....

  datatype Verification = Valid | Invalid | Absent

  /** A proof of this suite; any other is somebody else's business. */
  predicate Ours(candidate: Json) {
    && candidate.Obj?
    && GetStr(candidate, "type") == Some(PROOF_TYPE)
    && GetStr(candidate, "cryptosuite") == Some(CRYPTOSUITE)
  }

  function FirstOurs(entries: seq<Json>): (p: Option<Json>)
    ensures p.Some? ==> Ours(p.value)
  {
    if entries == [] then None
    else if Ours(entries[0]) then Some(entries[0])
    else FirstOurs(entries[1..])
  }

  function SelectProof(document: Json): (p: Option<Json>)
    ensures p.Some? ==> Ours(p.value) && document.Obj?
  {
    match Get(document, "proof")
    case None => None
    case Some(Arr(entries)) => FirstOurs(entries)
    case Some(single) => if Ours(single) then Some(single) else None
  }

  function DecodeMultibase(env: Env, text: string): Option<Bytes> {
    if text != "" && text[0] == 'z' then env.decode58(text[1..]) else None
  }

  /** A key is raw, or raw behind the Ed25519 multicodec prefix. */
  function DecodePublicKey(env: Env, multibase: string): (key: Option<Bytes>)
    ensures key.Some? ==> |key.value| == 32
  {
    match DecodeMultibase(env, multibase)
    case None => None
    case Some(d) =>
      if |d| == 34 && d[0] == 0xed && d[1] == 0x01 then Some(d[2..])
      else if |d| == 32 then Some(d)
      else None
  }

  function DecodeSignature(env: Env, multibase: string): Option<Bytes> {
    match DecodeMultibase(env, multibase)
    case None => None
    case Some(d) => if |d| == 64 then Some(d) else None
  }

  /** Why a sound proof is still no usable assertion of authorship. */
  predicate UnusableClaim(env: Env, proof: Json, now: int) {
    var expires, created := GetStr(proof, "expires"), GetStr(proof, "created");
    || GetStr(proof, "proofPurpose") != Some(PROOF_PURPOSE)
    || (expires.Some? && var deadline := env.parseTime(expires.value); deadline.None? || now > deadline.value)
    || (created.Some? && var stamp := env.parseTime(created.value);
          stamp.Some? && stamp.value > now + CREATED_SKEW_TOLERANCE)
  }

  /** The configuration as it was hashed: without its value, and with the document's context unless
      it carries its own. */
  function HashedConfig(document: Json, proof: Json): Config
    requires proof.Obj?
  {
    var config := proof.fields - {"proofValue"};
    if "@context" !in config && Get(document, "@context").Some?
    then config["@context" := Get(document, "@context").value]
    else config
  }

  /** Whether the signature of the selected proof holds of the document under the key. */
  predicate SignatureHolds(env: Env, document: Json, proof: Json, publicKeyMultibase: string)
    requires document.Obj? && proof.Obj?
  {
    var value := GetStr(proof, "proofValue");
    && value.Some?
    && var signature, key := DecodeSignature(env, value.value), DecodePublicKey(env, publicKeyMultibase);
    && signature.Some? && key.Some? && env.validKey(key.value)
    && var input := SigningInput(env, HashedConfig(document, proof), Unsigned(document));
    && input.Some? && env.verifies(key.value, input.value, signature.value)
  }

  function Verify(env: Env, activity: Json, publicKeyMultibase: string, now: int): Verification {
    match SelectProof(activity)
    case None => Absent
    case Some(proof) =>
      if env.size(activity) > MAX_PROOF_DOCUMENT_BYTES then Invalid
      else if !SignatureHolds(env, activity, proof, publicKeyMultibase) then Invalid
      else if UnusableClaim(env, proof, now) then Absent
      else Valid
  }

  // ..... The verdict, said of the document .....

  /** A field of an object that holds that text. */
  predicate HasText(j: Json, key: string, text: string) {
    j.Obj? && key in j.fields && j.fields[key] == Str(text)
  }

  predicate IsOurs(candidate: Json) {
    HasText(candidate, "type", "DataIntegrityProof") && HasText(candidate, "cryptosuite", "eddsa-jcs-2022")
  }

  /** The proof that is looked at: the document's only one, or the first of a set, of this suite. */
  ghost predicate IsSelected(document: Json, proof: Json) {
    && document.Obj? && "proof" in document.fields && IsOurs(proof)
    && match document.fields["proof"]
       case Arr(entries) =>
         exists i :: 0 <= i < |entries| && entries[i] == proof && forall j :: 0 <= j < i ==> !IsOurs(entries[j])
       case single => single == proof
  }

  /** A base58btc text in the multibase form. */
  ghost predicate Encodes(env: Env, text: string, bytes: Bytes) {
    |text| > 0 && text[0] == 'z' && env.decode58(text[1..]) == Some(bytes)
  }

  /** A key's text holds its 32 bytes, bare or behind the two of the Ed25519 multicodec. */
  ghost predicate EncodesKey(env: Env, text: string, key: Bytes) {
    |key| == 32 && (Encodes(env, text, key) || Encodes(env, text, [237, 1] + key))
  }

  /** What of the proof is signed: all but its value, and the document's context unless it has its own. */
  ghost predicate IsConfig(document: Json, proof: Json, config: Config)
    requires document.Obj? && proof.Obj?
  {
    && (forall k :: k in config <==> (k in proof.fields && k != "proofValue")
                                     || (k == "@context" && k in document.fields))
    && (forall k :: k in config ==> config[k] == if k in proof.fields then proof.fields[k] else document.fields[k])
  }

  /** The value is a signature, under the key, of the configuration's hash and then the document's. */
  ghost predicate IsSignature(env: Env, document: Json, proof: Json, key: Bytes, signature: Bytes)
    requires document.Obj? && proof.Obj?
  {
    exists config: Config :: IsConfig(document, proof, config)
      && var c, d := env.jcs(Obj(config)), env.jcs(Obj(document.fields - {"proof"}));
         && c.Some? && d.Some?
         && env.verifies(key, env.sha256(c.value) + env.sha256(d.value), signature)
  }

  ghost predicate IsSignedBy(env: Env, document: Json, proof: Json, keyText: string)
    requires document.Obj? && proof.Obj?
  {
    exists value: string, signature: Bytes, key: Bytes
      {:trigger HasText(proof, "proofValue", value), Encodes(env, value, signature), EncodesKey(env, keyText, key)} ::
      && HasText(proof, "proofValue", value) && Encodes(env, value, signature) && |signature| == 64
      && EncodesKey(env, keyText, key) && env.validKey(key)
      && IsSignature(env, document, proof, key, signature)
  }

  /** The proof asserts authorship, has not expired, and is not dated more than five minutes ahead. */
  ghost predicate IsUsable(env: Env, proof: Json, now: int) {
    && HasText(proof, "proofPurpose", "assertionMethod")
    && (forall text: string :: HasText(proof, "expires", text) ==>
          env.parseTime(text).Some? && now <= env.parseTime(text).value)
    && (forall text: string :: HasText(proof, "created", text) && env.parseTime(text).Some? ==>
          env.parseTime(text).value <= now + 5 * 60 * 1_000_000_000)
  }

  /** A document is valid exactly when its selected proof is within the bound of a mebibyte, signed by
      the key, and usable; it is unproven exactly when it has no such proof or only its claims fail. */
  lemma VerdictIs(env: Env, document: Json, keyText: string, now: int)
    ensures Verify(env, document, keyText, now) == Valid <==>
      exists p :: IsSelected(document, p)
        && env.size(document) <= 1048576 && IsSignedBy(env, document, p, keyText) && IsUsable(env, p, now)
    ensures Verify(env, document, keyText, now) == Absent <==>
      forall p :: IsSelected(document, p) ==>
        env.size(document) <= 1048576 && IsSignedBy(env, document, p, keyText) && !IsUsable(env, p, now)
  {
    hide IsSelected, IsSignedBy, IsUsable, SelectProof, SignatureHolds, UnusableClaim;
    forall p
      ensures SelectProof(document) == Some(p) <==> IsSelected(document, p)
    {
      SelectIs(document, p);
    }
    if SelectProof(document).Some? {
      var p := SelectProof(document).value;
      SignedByIs(env, document, p, keyText);
      UsableIs(env, p, now);
    }
  }

  lemma TextIs(j: Json, key: string, text: string)
    ensures GetStr(j, key) == Some(text) <==> HasText(j, key, text)
  {
  }

  lemma OursIs(candidate: Json)
    ensures Ours(candidate) <==> IsOurs(candidate)
  {
    TextIs(candidate, "type", "DataIntegrityProof");
    TextIs(candidate, "cryptosuite", "eddsa-jcs-2022");
  }

  predicate IsFirstOf(entries: seq<Json>, p: Json, i: nat) {
    i < |entries| && entries[i] == p && IsOurs(p) && forall j :: 0 <= j < i ==> !IsOurs(entries[j])
  }

  lemma {:induction false} FirstOursIs(entries: seq<Json>, p: Json)
    ensures FirstOurs(entries) == Some(p) <==> exists i: nat :: IsFirstOf(entries, p, i)
    decreases |entries|
  {
    hide Ours, IsOurs;
    if entries != [] {
      OursIs(entries[0]);
      if IsOurs(entries[0]) {
        if entries[0] == p { assert IsFirstOf(entries, p, 0); }
      } else {
        FirstOursIs(entries[1..], p);
        if i: nat :| IsFirstOf(entries[1..], p, i) {
          assert forall j :: 0 < j < i + 1 ==> entries[j] == entries[1..][j - 1];
          assert IsFirstOf(entries, p, i + 1);
        }
        if i: nat :| IsFirstOf(entries, p, i) {
          assert IsFirstOf(entries[1..], p, i - 1);
        }
      }
    }
  }

  lemma SelectIs(document: Json, p: Json)
    ensures SelectProof(document) == Some(p) <==> IsSelected(document, p)
  {
    hide Ours, IsOurs, FirstOurs;
    OursIs(p);
    if document.Obj? && "proof" in document.fields {
      match document.fields["proof"]
      case Arr(entries) =>
        FirstOursIs(entries, p);
        if IsSelected(document, p) {
          var i :| 0 <= i < |entries| && entries[i] == p && forall j :: 0 <= j < i ==> !IsOurs(entries[j]);
          assert IsFirstOf(entries, p, i);
        }
        if i: nat :| IsFirstOf(entries, p, i) {
          assert entries[i] == p;
        }
      case single => OursIs(single);
    }
  }

  lemma EncodesIs(env: Env, text: string, bytes: Bytes)
    ensures DecodeMultibase(env, text) == Some(bytes) <==> Encodes(env, text, bytes)
  {
  }

  lemma KeyIs(env: Env, text: string, key: Bytes)
    ensures DecodePublicKey(env, text) == Some(key) <==> EncodesKey(env, text, key)
  {
    if DecodeMultibase(env, text).Some? {
      var d := DecodeMultibase(env, text).value;
      if |d| == 34 && d[0] == 237 && d[1] == 1 {
        assert d == [237, 1] + d[2..];
        assert ([237, 1] + key)[2..] == key;
      }
    }
  }

  lemma ConfigIs(document: Json, proof: Json, config: Config)
    requires document.Obj? && proof.Obj?
    ensures config == HashedConfig(document, proof) <==> IsConfig(document, proof, config)
  {
    var h := HashedConfig(document, proof);
    assert IsConfig(document, proof, h);
    if IsConfig(document, proof, config) {
      assert forall k :: k in config <==> k in h;
      assert config == h;
    }
  }

  lemma SignatureIs(env: Env, document: Json, proof: Json, key: Bytes, signature: Bytes)
    requires document.Obj? && proof.Obj?
    ensures IsSignature(env, document, proof, key, signature) <==>
      var input := SigningInput(env, HashedConfig(document, proof), Unsigned(document));
      input.Some? && env.verifies(key, input.value, signature)
  {
    hide IsConfig, HashedConfig;
    var h := HashedConfig(document, proof);
    ConfigIs(document, proof, h);
    forall config: Config
      ensures IsConfig(document, proof, config) <==> config == h
    {
      ConfigIs(document, proof, config);
    }
  }

  lemma SignedByIs(env: Env, document: Json, proof: Json, keyText: string)
    requires document.Obj? && proof.Obj?
    ensures SignatureHolds(env, document, proof, keyText) <==> IsSignedBy(env, document, proof, keyText)
  {
    hide IsSignature, SigningInput, HashedConfig, DecodePublicKey, EncodesKey, DecodeMultibase, Encodes, GetStr,
      HasText;
    forall value: string
      ensures GetStr(proof, "proofValue") == Some(value) <==> HasText(proof, "proofValue", value)
    {
      TextIs(proof, "proofValue", value);
    }
    forall value: string, signature: Bytes
      ensures DecodeMultibase(env, value) == Some(signature) <==> Encodes(env, value, signature)
    {
      EncodesIs(env, value, signature);
    }
    forall key: Bytes
      ensures DecodePublicKey(env, keyText) == Some(key) <==> EncodesKey(env, keyText, key)
    {
      KeyIs(env, keyText, key);
    }
    forall key: Bytes, signature: Bytes
      ensures IsSignature(env, document, proof, key, signature) <==>
        var input := SigningInput(env, HashedConfig(document, proof), Unsigned(document));
        input.Some? && env.verifies(key, input.value, signature)
    {
      SignatureIs(env, document, proof, key, signature);
    }
    if SignatureHolds(env, document, proof, keyText) {
      var value := GetStr(proof, "proofValue").value;
      assert HasText(proof, "proofValue", value) && Encodes(env, value, DecodeMultibase(env, value).value);
      assert EncodesKey(env, keyText, DecodePublicKey(env, keyText).value);
    }
  }

  lemma UsableIs(env: Env, proof: Json, now: int)
    ensures IsUsable(env, proof, now) <==> !UnusableClaim(env, proof, now)
  {
    hide GetStr, HasText;
    forall key: string, text: string
      ensures GetStr(proof, key) == Some(text) <==> HasText(proof, key, text)
    {
      TextIs(proof, key, text);
    }
  }

  // ..... What is assumed of the library code .....

  /** Encoding is undone by decoding, keys and signatures have their lengths, every document can be
      canonicalised, and a signature made with a key verifies under its public half. */
  ghost predicate Correct(env: Env) {
    && (forall b {:trigger env.encode58(b)} :: env.decode58(env.encode58(b)) == Some(b))
    && (forall k {:trigger env.publicKey(k)} :: |env.publicKey(k)| == 32 && env.validKey(env.publicKey(k)))
    && (forall j {:trigger env.jcs(j)} :: env.jcs(j).Some?)
    && (forall k, m {:trigger env.signature(k, m)} ::
          |env.signature(k, m)| == 64 && env.verifies(env.publicKey(k), m, env.signature(k, m)))
  }

  /** Canonicalisation and hashing lose nothing, and under one key a signature is of one message. */
  ghost predicate Binding(env: Env) {
    && (forall a, b {:trigger env.jcs(a), env.jcs(b)} :: env.jcs(a).Some? && env.jcs(a) == env.jcs(b) ==> a == b)
    && (forall a {:trigger env.sha256(a)} :: |env.sha256(a)| == 32)
    && (forall a, b {:trigger env.sha256(a), env.sha256(b)} :: env.sha256(a) == env.sha256(b) ==> a == b)
    && (forall k, m, m', s {:trigger env.verifies(k, m, s), env.verifies(k, m', s)} ::
          env.verifies(k, m, s) && env.verifies(k, m', s) ==> m == m')
  }

  // ..... Signing and verifying .....

  /** The two forms a public key is published in. */
  predicate IsKeyText(env: Env, key: Bytes, text: string) {
    || text == Multibase(env, env.publicKey(key))
    || text == Multibase(env, [0xed, 0x01] + env.publicKey(key))
  }

  lemma KeyTextDecodes(env: Env, key: Bytes, text: string)
    requires Correct(env) && IsKeyText(env, key, text)
    ensures DecodePublicKey(env, text) == Some(env.publicKey(key))
  {
    var raw, prefixed := env.publicKey(key), [0xed, 0x01] + env.publicKey(key);
    assert Multibase(env, raw)[1..] == env.encode58(raw);
    assert Multibase(env, prefixed)[1..] == env.encode58(prefixed);
    assert prefixed[2..] == raw;
  }

  // A proof hashes back to what was signed, wherever in the document it is put.
  lemma ProofHashesBack(env: Env, unsigned: Config, key: Bytes, config: Config, document: Json)
    requires Correct(env) && "@context" in unsigned && "proof" !in unsigned
    requires "@context" !in config && "proofValue" !in config
    requires document.Obj? && Unsigned(document) == unsigned
    ensures ProofFor(env, unsigned, key, config).Some?
    ensures var proof := ProofFor(env, unsigned, key, config).value;
      && proof.Obj?
      && HashedConfig(document, proof) == config["@context" := unsigned["@context"]]
      && forall text :: IsKeyText(env, key, text) ==> SignatureHolds(env, document, proof, text)
  {
    var full := config["@context" := unsigned["@context"]];
    var input := SigningInput(env, full, unsigned).value;
    var signature := env.signature(key, input);
    var proof := ProofFor(env, unsigned, key, config).value;
    assert proof.fields - {"proofValue"} == config;
    assert Get(document, "@context") == Some(unsigned["@context"]) by {
      assert document.fields["@context"] == Unsigned(document)["@context"];
    }
    assert Multibase(env, signature)[1..] == env.encode58(signature);
    forall text | IsKeyText(env, key, text)
      ensures SignatureHolds(env, document, proof, text)
    {
      KeyTextDecodes(env, key, text);
    }
  }

  /** Entries before the first proof of this suite are skipped. */
  lemma {:induction false} ForeignSkipped(before: seq<Json>, proof: Json, after: seq<Json>)
    requires Ours(proof) && forall e :: e in before ==> !Ours(e)
    ensures FirstOurs(before + [proof] + after) == Some(proof)
    decreases |before|
  {
    if before == [] {
      assert before + [proof] + after == [proof] + after;
    } else {
      assert (before + [proof] + after)[1..] == before[1..] + [proof] + after;
      ForeignSkipped(before[1..], proof, after);
    }
  }

  /** Signing works on an object or a null, and on nothing else. */
  lemma SignableIff(env: Env, activity: Json, key: Bytes, config: Config)
    requires Correct(env)
    ensures Signed(env, activity, key, config).Ok? <==> activity.Obj? || activity.Null?
    ensures !activity.Obj? && !activity.Null? ==> Signed(env, activity, key, config) == Err(Panicked)
  {
  }

  /** A signed document is valid under its key, in either spelling of the key, when it is within the
      size bound and its creation is not past the clock's tolerance; so it is when its proof is put
      into a set behind proofs of other suites, before anything. */
  lemma SignedIsValid(env: Env, activity: Json, key: Bytes, method_: string, created: string, text: string, now: int,
                      before: seq<Json>, after: seq<Json>)
    requires Correct(env) && Signed(env, activity, key, SignerConfig(method_, created)).Ok?
    requires IsKeyText(env, key, text)
    requires env.parseTime(created).Some? ==> env.parseTime(created).value <= now + CREATED_SKEW_TOLERANCE
    requires forall e :: e in before ==> !Ours(e)
    ensures var signed := Signed(env, activity, key, SignerConfig(method_, created)).value;
      && signed.Obj? && "proof" in signed.fields
      && (env.size(signed) <= MAX_PROOF_DOCUMENT_BYTES ==> Verify(env, signed, text, now) == Valid)
      && var inSet := Obj(signed.fields["proof" := Arr(before + [signed.fields["proof"]] + after)]);
         env.size(inSet) <= MAX_PROOF_DOCUMENT_BYTES ==> Verify(env, inSet, text, now) == Valid
  {
    hide Correct, SignatureHolds, SigningInput, UnusableClaim, IsKeyText, HashedConfig, Ours, NewContext;
    var config := SignerConfig(method_, created);
    var doc := WithContext(activity).value;
    var unsigned := Unsigned(doc);
    var signed := Signed(env, activity, key, config).value;
    var proof := signed.fields["proof"];
    var inSet := Obj(signed.fields["proof" := Arr(before + [proof] + after)]);
    assert Unsigned(signed) == unsigned && Unsigned(inSet) == unsigned;
    ProofHashesBack(env, unsigned, key, config, signed);
    ProofHashesBack(env, unsigned, key, config, inSet);
    SignerProof(env, unsigned, key, method_, created, now);
    ForeignSkipped(before, proof, after);
  }

  // What the signer's own proof says of itself.
  lemma SignerProof(env: Env, unsigned: Config, key: Bytes, method_: string, created: string, now: int)
    requires "@context" in unsigned && ProofFor(env, unsigned, key, SignerConfig(method_, created)).Some?
    requires env.parseTime(created).Some? ==> env.parseTime(created).value <= now + CREATED_SKEW_TOLERANCE
    ensures var proof := ProofFor(env, unsigned, key, SignerConfig(method_, created)).value;
      Ours(proof) && !UnusableClaim(env, proof, now)
  {
    hide SigningInput;
    var proof := ProofFor(env, unsigned, key, SignerConfig(method_, created)).value;
    assert "expires" !in proof.fields;
  }

  /** The context is only ever extended, by one entry at the end, and only once. */
  lemma ContextSettles(j: Json)
    requires WithContext(j).Some?
    ensures var doc := WithContext(j).value;
      && doc.Obj? && "@context" in doc.fields
      && doc.fields["@context"].Arr? && DI in doc.fields["@context"].items
      && WithContext(doc) == Some(doc)
      && (j.Obj? ==> doc.fields - {"@context"} == j.fields - {"@context"})
    ensures var items := WithContext(j).value.fields["@context"].items;
      var uri := "https://w3id.org/security/data-integrity/v1";
      match Get(j, "@context")
      case None => items == [Str(uri)]
      case Some(Arr(given)) => items == if Str(uri) in given then given else given + [Str(uri)]
      case Some(single) => items == [single, Str(uri)]
  {
    var doc := WithContext(j).value;
    var items := doc.fields["@context"].items;
    assert DI in items by {
      if j.Obj? && "@context" in j.fields {
        var c := j.fields["@context"];
        if c.Arr? && DI !in c.items { assert (c.items + [DI])[|c.items|] == DI; }
        if !c.Arr? { assert [c, DI][1] == DI; }
      }
    }
    assert doc.fields["@context" := doc.fields["@context"]] == doc.fields;
  }

  /** The proof embedded names the method and the time it was given, and nothing else of the document
      changes but its context. */
  lemma SignedCarries(env: Env, activity: Json, key: Bytes, method_: string, created: string)
    requires Signed(env, activity, key, SignerConfig(method_, created)).Ok?
    ensures var signed := Signed(env, activity, key, SignerConfig(method_, created)).value;
      && signed.Obj? && "proof" in signed.fields
      && (activity.Obj? ==> signed.fields - {"proof", "@context"} == activity.fields - {"proof", "@context"})
    ensures var proof := Signed(env, activity, key, SignerConfig(method_, created)).value.fields["proof"];
      && proof.Obj?
      && proof.fields.Keys == {"type", "cryptosuite", "verificationMethod", "proofPurpose", "created", "proofValue"}
      && HasText(proof, "verificationMethod", method_) && HasText(proof, "created", created)
  {
    hide SigningInput, NewContext, Multibase;
    var signed := Signed(env, activity, key, SignerConfig(method_, created)).value;
    var proof := signed.fields["proof"];
    assert proof.fields.Keys == {"type", "cryptosuite", "verificationMethod", "proofPurpose", "created", "proofValue"};
  }

  /** Signing again replaces the proof: it is as if the first signature had never been made. */
  lemma ResigningReplaces(env: Env, activity: Json, key: Bytes, config: Config, key': Bytes, config': Config)
    requires Signed(env, activity, key, config).Ok?
    ensures Signed(env, Signed(env, activity, key, config).value, key', config')
         == Signed(env, activity, key', config')
  {
    hide ProofFor;
    var doc := WithContext(activity).value;
    ContextSettles(activity);
    var signed := Signed(env, activity, key, config).value;
    assert signed.fields["@context"] == doc.fields["@context"];
    ContextSettles(doc);
    assert WithContext(signed) == Some(signed) by {
      assert signed.fields["@context" := signed.fields["@context"]] == signed.fields;
    }
    assert Unsigned(signed) == Unsigned(doc);
    var again := ProofFor(env, Unsigned(doc), key', config');
    if again.Some? {
      assert signed.fields["proof" := again.value] == doc.fields["proof" := again.value];
    }
  }

  // ..... Tampering .....

  lemma ConcatInjective(a: Bytes, b: Bytes, a': Bytes, b': Bytes)
    requires |a| == |a'| && a + b == a' + b'
    ensures a == a' && b == b'
  {
    assert a == (a + b)[..|a|] && a' == (a' + b')[..|a|];
    assert b == (a + b)[|a|..] && b' == (a' + b')[|a|..];
  }

  lemma InputBinds(env: Env, config: Config, doc: Config, config': Config, doc': Config)
    requires Binding(env)
    requires SigningInput(env, config, doc).Some?
    requires SigningInput(env, config, doc) == SigningInput(env, config', doc')
    ensures config == config' && doc == doc'
  {
    var c, d := env.jcs(Obj(config)).value, env.jcs(Obj(doc)).value;
    var c', d' := env.jcs(Obj(config')).value, env.jcs(Obj(doc')).value;
    ConcatInjective(env.sha256(c), env.sha256(d), env.sha256(c'), env.sha256(d'));
    assert Obj(config) == Obj(config') && Obj(doc) == Obj(doc');
  }

  // The claims are read from keys the hashed configuration covers.
  lemma ClaimsAreHashed(env: Env, document: Json, proof: Json, document': Json, proof': Json, now: int)
    requires proof.Obj? && proof'.Obj?
    requires HashedConfig(document, proof) == HashedConfig(document', proof')
    ensures UnusableClaim(env, proof, now) <==> UnusableClaim(env, proof', now)
  {
    var h, h' := HashedConfig(document, proof), HashedConfig(document', proof');
    forall k | k in ["proofPurpose", "expires", "created"]
      ensures GetStr(proof, k) == GetStr(proof', k)
    {
      assert k != "proofValue" && k != "@context" by { DistinctKeys(); }
      assert Get(proof, k) == (if k in h then Some(h[k]) else None);
      assert Get(proof', k) == (if k in h' then Some(h'[k]) else None);
    }
    var keys := ["proofPurpose", "expires", "created"];
    assert keys[0] in keys && keys[1] in keys && keys[2] in keys;
  }

  lemma DistinctKeys()
    ensures forall k :: k in ["proofPurpose", "expires", "created"] ==> k != "proofValue" && k != "@context"
  {
    assert "proofPurpose"[5] == 'P' && "proofValue"[5] == 'V';
  }

  /** A document carrying the proof value of one that was valid, in a proof of this suite, whenever it is
      checked. If it is the same document with the same effective configuration, within the size bound,
      its own claims say whether it is still valid or proves nothing any more. Anything else edited,
      content, purpose, dates or context, makes it invalid, and nothing makes it merely unproven. */
  lemma TamperingIsInvalid(env: Env, good: Json, other: Json, text: string, now: int, later: int)
    requires Binding(env) && Verify(env, good, text, now) == Valid
    requires SelectProof(other).Some?
    requires GetStr(SelectProof(other).value, "proofValue") == GetStr(SelectProof(good).value, "proofValue")
    ensures var p, q := SelectProof(good).value, SelectProof(other).value;
      && Verify(env, other, text, later) ==
           (if && env.size(other) <= MAX_PROOF_DOCUMENT_BYTES
               && Unsigned(other) == Unsigned(good)
               && HashedConfig(other, q) == HashedConfig(good, p)
            then if UnusableClaim(env, p, later) then Absent else Valid
            else Invalid)
      && !UnusableClaim(env, p, now)
  {
    hide Binding, UnusableClaim, DecodePublicKey, DecodeSignature, SelectProof, SigningInput, HashedConfig;
    var p, q := SelectProof(good).value, SelectProof(other).value;
    if SignatureHolds(env, other, q, text) {
      SameMessage(env, good, p, other, q, text);
    }
    if HashedConfig(other, q) == HashedConfig(good, p) {
      ClaimsAreHashed(env, other, q, good, p, later);
    }
  }

  // Two documents whose signatures hold with one value under one key are one document.
  lemma SameMessage(env: Env, good: Json, p: Json, other: Json, q: Json, text: string)
    requires Binding(env) && good.Obj? && other.Obj? && p.Obj? && q.Obj?
    requires SignatureHolds(env, good, p, text) && SignatureHolds(env, other, q, text)
    requires GetStr(q, "proofValue") == GetStr(p, "proofValue")
    ensures Unsigned(other) == Unsigned(good) && HashedConfig(other, q) == HashedConfig(good, p)
  {
    hide DecodePublicKey, DecodeSignature, SigningInput, HashedConfig, Unsigned;
    var m := SigningInput(env, HashedConfig(good, p), Unsigned(good));
    var m' := SigningInput(env, HashedConfig(other, q), Unsigned(other));
    var key := DecodePublicKey(env, text).value;
    var s := DecodeSignature(env, GetStr(p, "proofValue").value).value;
    assert env.verifies(key, m.value, s) && env.verifies(key, m'.value, s);
    InputBinds(env, HashedConfig(good, p), Unsigned(good), HashedConfig(other, q), Unsigned(other));
  }

  // ..... The one context that is doubled .....

  /** The Data Integrity context ends up listed twice exactly when it already was, or when it was the
      whole of a single-string context. */
  lemma ContextDoubledIff(j: Json)
    requires j.Obj? && "@context" in j.fields
    ensures var items := NewContext(j.fields["@context"]).items;
      multiset(items)[DI] > 1 <==>
        || j.fields["@context"] == DI
        || (j.fields["@context"].Arr? && multiset(j.fields["@context"].items)[DI] > 1)
  {
    var c := j.fields["@context"];
    if c.Arr? {
      if DI !in c.items { assert multiset(c.items + [DI]) == multiset(c.items) + multiset([DI]); }
    } else {
      assert multiset([c, DI]) == multiset{c, DI};
    }
  }
}
