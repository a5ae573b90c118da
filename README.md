# Blockcerts v2 issuer profile, modelled in Dafny

`cert_tools/create_v2_issuer.py` produces the issuer's identification file.
This is a JSON-LD `Profile` object that names the issuer and holds the issuer's
signing key and revocation-list location. Signing and verification tools read
this file later. This project models how `generate_issuer_file` builds that
object from the resolved configuration, and proves the shape of the result.

Files:

- `wrappers.dfy`: `Option`. Python's `None` becomes `None`.
- `json_value.dfy`: the JSON values the profile is made of (`null`, string, array, object).
  An object is a sequence of entries in insertion order.
  The key-order contract of `IssuerJson` assumes Python 3.7 or later, where a `dict` keeps insertion order.
- `py_dict.dfy`: what the builder uses of Python's `dict`.
  - `Lookup` is `d[k]`, with `None` standing for the `KeyError` raised for a missing key.
  - `Put` is `d[k] = v`: an existing key keeps its position, and a new key goes at the end.
  - `FromPairs` is a dict display: its pairs are inserted from left to right.
- `create_v2_issuer.dfy`: the contents of the module (`ISSUER_TYPE`, the two context URLs) and the configuration record.
  It also holds `IssuerJson`, the profile-building part of `generate_issuer_file`, and the lemmas about its result.

The builder's inputs:

- `issuer_id`, `public_key` and `revocation_list_uri` are plain strings, because the argument parser makes them required.
- `issuer_url`, `issuer_name`, `issuer_email` and `intro_url` are `Option<string>`.
- The value `helpers.encode_image` returns for the logo file is passed in as an `Option<string>`.

Three things the code does that a reader of the Profile format might not expect:

- `url`, `name`, `email` and `image` are always emitted, as `null` when absent. They are not omitted.
- `publicKeys` always wraps exactly one configured key string.
- The builder validates nothing.

Only `introductionUrl` is conditional. It is added when `intro_url` is truthy,
which means present and not the empty string.

## Model

| member | source | states |
|---|---|---|
| `PyDict.Lookup` | cert_tools/create_v2_issuer.py:26-39 | reading a key of the dict gives `None` exactly when the key is absent; otherwise it gives a value stored under that key |
| `PyDict.Put` | cert_tools/create_v2_issuer.py:39 | item assignment leaves the key order alone when the key is already present; otherwise it appends the key at the end |
| `PyDict.LookupPut` | cert_tools/create_v2_issuer.py:39 | after `d[k] = v`, key `k` reads `v` and every other key reads what it read before |
| `PyDict.PutFresh` | cert_tools/create_v2_issuer.py:39 | assigning a key the dict does not hold yet appends exactly that one entry, and the earlier entries are untouched |
| `PyDict.PutDistinct` | cert_tools/create_v2_issuer.py:39 | item assignment never gives the dict a duplicate key |
| `PyDict.AppendFresh` | cert_tools/create_v2_issuer.py:39 | appending an entry under a new key keeps the keys distinct and adds that key last |
| `PyDict.FromPairs` | cert_tools/create_v2_issuer.py:26-36 | a dict display has distinct keys, and they are exactly the keys it lists |
| `PyDict.FromDistinctPairs` | cert_tools/create_v2_issuer.py:26-36 | a display with pairwise distinct keys evaluates to exactly its pairs, in the order written |
| `PyDict.LookupAt` | cert_tools/create_v2_issuer.py:26-39 | in a dict, looking up any entry's key gives that entry's value |
| `CreateV2Issuer.ProfilePairsDistinct` | cert_tools/create_v2_issuer.py:26-36 | the nine keys of the profile display are pairwise distinct and appear in the order `@context, id, url, name, email, image, publicKeys, revocationList, type` |
| `CreateV2Issuer.IssuerJson` | cert_tools/create_v2_issuer.py:24-39 | the profile is an object with distinct keys; in insertion order they are the nine display keys, followed by `introductionUrl` exactly when `intro_url` is truthy. Its parts: `ProfilePairs` is the dict display (lines 26-36), `Nullable` turns `None` into `null` (lines 29-32), and `Truthy` is the test at line 38 |
| `CreateV2Issuer.IssuerEntries` | cert_tools/create_v2_issuer.py:26-39 | the profile's entries are the display's nine pairs in order, followed by `("introductionUrl", intro_url)` exactly when `intro_url` is truthy |
| `CreateV2Issuer.ProfileFieldAt` | cert_tools/create_v2_issuer.py:26-36 | each of the nine display keys reads back the value the display gives it, with or without `introductionUrl` |
| `CreateV2Issuer.ContextIsFixed` | cert_tools/create_v2_issuer.py:17-27 | for every input, `@context` is `[BLOCKCERTS_V2_CONTEXT_JSON, OPEN_BADGES_V2_CONTEXT_JSON]` in that order |
| `CreateV2Issuer.TypeIsProfile` | cert_tools/create_v2_issuer.py:35 | for every input, `type` is the string `Profile` (`ISSUER_TYPE`, line 15) |
| `CreateV2Issuer.PublicKeysWrapsOneKey` | cert_tools/create_v2_issuer.py:33 | `publicKeys` is an array of exactly one object, and that object's one key, `publicKey`, maps to `public_key` |
| `CreateV2Issuer.IdCopied` | cert_tools/create_v2_issuer.py:28 | `id` is `issuer_id`, unchanged |
| `CreateV2Issuer.RevocationListCopied` | cert_tools/create_v2_issuer.py:34 | `revocationList` is `revocation_list_uri`, unchanged |
| `CreateV2Issuer.UrlAlwaysPresent` | cert_tools/create_v2_issuer.py:29 | `url` is always present; it holds `issuer_url`, or `null` when that is absent |
| `CreateV2Issuer.NameAlwaysPresent` | cert_tools/create_v2_issuer.py:30 | `name` is always present; it holds `issuer_name`, or `null` when that is absent |
| `CreateV2Issuer.EmailAlwaysPresent` | cert_tools/create_v2_issuer.py:31 | `email` is always present; it holds `issuer_email`, or `null` when that is absent |
| `CreateV2Issuer.ImageAlwaysPresent` | cert_tools/create_v2_issuer.py:32 | `image` is always present; it holds the encoded logo, or `null` when there is none |
| `CreateV2Issuer.IntroductionUrlIffTruthy` | cert_tools/create_v2_issuer.py:38-39 | `introductionUrl` is present if and only if `intro_url` is present and non-empty, and when present it holds `intro_url` |
| `CreateV2Issuer.IntroUrlAffectsOnlyTail` | cert_tools/create_v2_issuer.py:26-39 | changing only `intro_url` leaves the first nine entries identical; there are ten entries when `intro_url` is truthy and nine otherwise |

## Left out

- Opening the output file or choosing standard output, writing, and closing (lines 22, 41, 43-44): these are I/O.
- `json.dumps(..., indent=2)` (line 41): the text formatting belongs to the JSON library. Only the JSON value is modelled.
- `helpers.encode_image` (line 32): a helper whose result becomes the `image` value; its source is not part of this model. Its result is an opaque `Option<string>` input, so the configuration record carries neither `issuer_logo_file` nor `output_file`.
- `get_config` and `main` (lines 47-71): argument and config-file parsing, and the process entry point. The parser alone makes `public_key`, `revocation_list_uri` and `issuer_id` required, so the model takes them as plain strings.
- Validation of URLs, e-mail addresses and keys: the module says it does none (lines 5-6), so none is modelled.
- Several public keys per issuer: the code wraps the one configured string and never splits it.
- Idempotence: `IssuerJson` is a Dafny function, so equal inputs give equal profiles by construction. The serialised bytes are out of scope.
