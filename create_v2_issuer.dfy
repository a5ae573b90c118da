/**
 * The issuer profile that `generate_issuer_file` builds: a JSON-LD "Profile"
 * object describing an issuer of Blockcerts certificates.
 */
module CreateV2Issuer {
  import opened Wrappers
  import opened JsonValue
  import opened PyDict

  const ISSUER_TYPE: string := "Profile"
  const OPEN_BADGES_V2_CONTEXT_JSON: string := "https://openbadgespec.org/v2/context.json"
  const BLOCKCERTS_V2_CONTEXT_JSON: string := "https://www.blockcerts.org/blockcerts_v2_alpha/context_bc.json"

  /**
   * The resolved configuration the builder reads. The three options the
   * argument parser marks as required are plain strings; the others may be
   * absent (`None`).
   */
  datatype Config = Config(
    publicKey: string,
    revocationListUri: string,
    issuerId: string,
    issuerUrl: Option<string>,
    issuerName: Option<string>,
    issuerEmail: Option<string>,
    introUrl: Option<string>)

  /** Python truthiness of an optional string: `None` and `''` are false. */
  predicate Truthy(o: Option<string>) {
    o.Some? && o.value != ""
  }

  /** An optional string as `json.dumps` sees it: `None` becomes `null`. */
  function Nullable(o: Option<string>): Json {
    match o
    case None => JNull
    case Some(s) => JStr(s)
  }

  /** The nine keys of the dict display, in the order it lists them. */
  const PROFILE_KEYS: seq<string> :=
    ["@context", "id", "url", "name", "email", "image", "publicKeys", "revocationList", "type"]

  const INTRODUCTION_URL: string := "introductionUrl"

  /** The pairs of the dict display, as written in the source. */
  function ProfilePairs(config: Config, encodedImage: Option<string>): Entries {
    [ ("@context", JArr([JStr(BLOCKCERTS_V2_CONTEXT_JSON), JStr(OPEN_BADGES_V2_CONTEXT_JSON)])),
      ("id", JStr(config.issuerId)),
      ("url", Nullable(config.issuerUrl)),
      ("name", Nullable(config.issuerName)),
      ("email", Nullable(config.issuerEmail)),
      ("image", Nullable(encodedImage)),
      ("publicKeys", JArr([JObj([("publicKey", JStr(config.publicKey))])])),
      ("revocationList", JStr(config.revocationListUri)),
      ("type", JStr(ISSUER_TYPE)) ]
  }

  /**
   * The issuer profile: the dict display, then `introductionUrl` assigned
   * when `intro_url` is truthy. `encodedImage` is what the image helper
   * returned for the configured logo file.
   */
  function IssuerJson(config: Config, encodedImage: Option<string>): (r: Json)
    ensures r.JObj? && DistinctKeys(r.entries)
    ensures Keys(r.entries) == PROFILE_KEYS + (if Truthy(config.introUrl) then [INTRODUCTION_URL] else [])
  {
    var pairs := ProfilePairs(config, encodedImage);
    var issuerJson := FromPairs(pairs);
    ProfilePairsDistinct(config, encodedImage);
    FromDistinctPairs(pairs);
    if Truthy(config.introUrl) then
      var intro := JStr(config.introUrl.value);
      IntroductionUrlNotInDisplay();
      PutFresh(issuerJson, INTRODUCTION_URL, intro);
      AppendFresh(pairs, INTRODUCTION_URL, intro);
      JObj(Put(issuerJson, INTRODUCTION_URL, intro))
    else
      JObj(issuerJson)
  }

  /** The value stored under `key` in a JSON object, if any. */
  function Get(doc: Json, key: string): Option<Json> {
    if doc.JObj? then Lookup(doc.entries, key) else None
  }

  /** The key assigned afterwards is not one of the display's keys, so the assignment appends. */
  lemma IntroductionUrlNotInDisplay()
    ensures INTRODUCTION_URL !in PROFILE_KEYS
  {
  }

  /** The display lists nine distinct keys, in the order `PROFILE_KEYS` gives. */
  lemma ProfilePairsDistinct(config: Config, encodedImage: Option<string>)
    ensures DistinctKeys(ProfilePairs(config, encodedImage))
    ensures Keys(ProfilePairs(config, encodedImage)) == PROFILE_KEYS
  {
  }

  /**
   * The profile's entries are the display's nine pairs in order, followed by
   * `introductionUrl` exactly when `intro_url` is truthy.
   */
  lemma IssuerEntries(config: Config, encodedImage: Option<string>)
    ensures IssuerJson(config, encodedImage).entries ==
      ProfilePairs(config, encodedImage)
        + (if Truthy(config.introUrl) then [(INTRODUCTION_URL, JStr(config.introUrl.value))] else [])
  {
    var pairs := ProfilePairs(config, encodedImage);
    ProfilePairsDistinct(config, encodedImage);
    FromDistinctPairs(pairs);
    if Truthy(config.introUrl) {
      IntroductionUrlNotInDisplay();
      PutFresh(pairs, INTRODUCTION_URL, JStr(config.introUrl.value));
    }
  }

  /** Each of the nine keys of the display reads back the value the display gives it. */
  lemma ProfileFieldAt(config: Config, encodedImage: Option<string>, i: nat, key: string)
    requires i < |PROFILE_KEYS| && PROFILE_KEYS[i] == key
    ensures Get(IssuerJson(config, encodedImage), key) == Some(ProfilePairs(config, encodedImage)[i].1)
  {
    var doc := IssuerJson(config, encodedImage);
    IssuerEntries(config, encodedImage);
    ProfilePairsDistinct(config, encodedImage);
    assert doc.entries[i] == ProfilePairs(config, encodedImage)[i];
    assert doc.entries[i].0 == Keys(doc.entries)[i] == PROFILE_KEYS[i];
    LookupAt(doc.entries, i);
  }

  /** `@context` is the Blockcerts context followed by the Open Badges v2 context, whatever the input. */
  lemma ContextIsFixed(config: Config, encodedImage: Option<string>)
    ensures Get(IssuerJson(config, encodedImage), "@context")
      == Some(JArr([JStr(BLOCKCERTS_V2_CONTEXT_JSON), JStr(OPEN_BADGES_V2_CONTEXT_JSON)]))
  {
    ProfileFieldAt(config, encodedImage, 0, "@context");
  }

  /** `type` is always the literal `Profile`. */
  lemma TypeIsProfile(config: Config, encodedImage: Option<string>)
    ensures Get(IssuerJson(config, encodedImage), "type") == Some(JStr("Profile"))
  {
    ProfileFieldAt(config, encodedImage, 8, "type");
  }

  /** `publicKeys` is a one-element array holding the single object `{"publicKey": public_key}`. */
  lemma PublicKeysWrapsOneKey(config: Config, encodedImage: Option<string>)
    ensures Get(IssuerJson(config, encodedImage), "publicKeys")
      == Some(JArr([JObj([("publicKey", JStr(config.publicKey))])]))
  {
    ProfileFieldAt(config, encodedImage, 6, "publicKeys");
  }

  /** `id` is the configured issuer id, unchanged. */
  lemma IdCopied(config: Config, encodedImage: Option<string>)
    ensures Get(IssuerJson(config, encodedImage), "id") == Some(JStr(config.issuerId))
  {
    ProfileFieldAt(config, encodedImage, 1, "id");
  }

  /** `revocationList` is the configured revocation list URI, unchanged. */
  lemma RevocationListCopied(config: Config, encodedImage: Option<string>)
    ensures Get(IssuerJson(config, encodedImage), "revocationList") == Some(JStr(config.revocationListUri))
  {
    ProfileFieldAt(config, encodedImage, 7, "revocationList");
  }

  /** `url` is always present: the configured issuer URL, or `null` when there is none. */
  lemma UrlAlwaysPresent(config: Config, encodedImage: Option<string>)
    ensures Get(IssuerJson(config, encodedImage), "url")
      == Some(if config.issuerUrl.Some? then JStr(config.issuerUrl.value) else JNull)
  {
    ProfileFieldAt(config, encodedImage, 2, "url");
  }

  /** `name` is always present: the configured issuer name, or `null` when there is none. */
  lemma NameAlwaysPresent(config: Config, encodedImage: Option<string>)
    ensures Get(IssuerJson(config, encodedImage), "name")
      == Some(if config.issuerName.Some? then JStr(config.issuerName.value) else JNull)
  {
    ProfileFieldAt(config, encodedImage, 3, "name");
  }

  /** `email` is always present: the configured issuer e-mail, or `null` when there is none. */
  lemma EmailAlwaysPresent(config: Config, encodedImage: Option<string>)
    ensures Get(IssuerJson(config, encodedImage), "email")
      == Some(if config.issuerEmail.Some? then JStr(config.issuerEmail.value) else JNull)
  {
    ProfileFieldAt(config, encodedImage, 4, "email");
  }

  /** `image` is always present: the encoded logo, or `null` when there is none. */
  lemma ImageAlwaysPresent(config: Config, encodedImage: Option<string>)
    ensures Get(IssuerJson(config, encodedImage), "image")
      == Some(if encodedImage.Some? then JStr(encodedImage.value) else JNull)
  {
    ProfileFieldAt(config, encodedImage, 5, "image");
  }

  /**
   * `introductionUrl` is present if and only if `intro_url` is present and
   * non-empty, and then it holds exactly that string.
   */
  lemma IntroductionUrlIffTruthy(config: Config, encodedImage: Option<string>)
    ensures Get(IssuerJson(config, encodedImage), INTRODUCTION_URL).Some?
      <==> config.introUrl.Some? && config.introUrl.value != ""
    ensures Truthy(config.introUrl) ==>
      Get(IssuerJson(config, encodedImage), INTRODUCTION_URL) == Some(JStr(config.introUrl.value))
  {
    var doc := IssuerJson(config, encodedImage);
    if Truthy(config.introUrl) {
      IssuerEntries(config, encodedImage);
      assert doc.entries[9] == (INTRODUCTION_URL, JStr(config.introUrl.value));
      LookupAt(doc.entries, 9);
    } else {
      assert Keys(doc.entries) == PROFILE_KEYS;
      IntroductionUrlNotInDisplay();
    }
  }

  /**
   * Changing only `intro_url` leaves the first nine entries identical; it
   * decides only whether a tenth, `introductionUrl`, follows them.
   */
  lemma IntroUrlAffectsOnlyTail(config: Config, encodedImage: Option<string>, otherIntro: Option<string>)
    ensures |IssuerJson(config, encodedImage).entries| == if Truthy(config.introUrl) then 10 else 9
    ensures IssuerJson(config, encodedImage).entries[..9]
      == IssuerJson(config.(introUrl := otherIntro), encodedImage).entries[..9]
  {
    var other := config.(introUrl := otherIntro);
    IssuerEntries(config, encodedImage);
    IssuerEntries(other, encodedImage);
    assert ProfilePairs(other, encodedImage) == ProfilePairs(config, encodedImage);
  }
}
