# spacy-http, modelled in Dafny

spacy-http puts a spaCy language pipeline behind two HTTP routes. `POST /tag`
and `POST /ner` take a JSON body `{"sentence": ...}`. They answer with a JSON
array of token records: `text`, `tag`, `lemma` and, on the entity route
only, `entity`. This project models the repository's own logic: the token
record and its serialisation, the lemma normalisation rule, the two handler
methods that map a pipeline document to tokens, the route table built at
startup, and the request guard that rejects a missing sentence.

The pipeline is a black box. A `Handlers.Handler` holds it as a function
from a sentence to a sequence of `Element` records. Each record carries the
six attributes the handler reads: `orth_`, `tag_`, `lemma_`, `lower_`,
`ent_iob_` and `ent_type_`. Everything the repository decides is then a
checkable function of that document.

Files, one module each:

- `wrappers.dfy`: `Option`, standing for Python's `Optional`.
- `json.dfy`: JSON values and Python's truth value of a decoded value.
- `text.dfy`: `str.lower` (ASCII letters) and `str.strip()` (Python's full set of whitespace characters).
- `tokens.dfy`: the `Token` record, `asdict`, `serialize`, and the JSON encoding of a handler result, with a decoder as its inverse.
- `handlers.dfy`: `_lemma`, `tag`, `ner`, the entity label and a splitter as its inverse.
- `server.dfy`: the `App` class and its route table, the response object's content type, and the `handle` closure.

Facts about the code that the model keeps as they are:

- `handle` rejects a missing or falsy sentence with status 401.
- Any truthy `sentence` value is passed to the handler method. A non-string one raises inside the pipeline; the model records this as the outcome `Raised`.
- `ner` joins marker and type with a hyphen only when the type is non-empty, and it uses the marker as the pipeline gives it. The model proves that the label splits back into marker and type whenever the marker has no hyphen of its own.

## Model

| member | source | states |
|---|---|---|
| `Tokens.AsDict` | spacyHttp/__main__.py:24 | `asdict` gives all four keys, each holding the record's own value, and the `entity` value is null exactly when the token has no entity |
| `Tokens.Serialized` | spacyHttp/__main__.py:23-27 | A serialised token has exactly the keys `text`, `tag`, `lemma`, plus `entity` exactly when the token has one; no value is ever null |
| `Tokens.Serialize` | spacyHttp/__main__.py:23-27 | Building the full dictionary and deleting `entity` in place when it is absent gives exactly the dictionary without null entries, with the record's text, tag, lemma and entity as values |
| `Tokens.SerializeRoundTrip` | spacyHttp/__main__.py:23-27 | The token reads back from its serialisation, so serialisation loses nothing |
| `Tokens.Encode` | spacyHttp/__main__.py:61-66 | A token list encodes as an array with one object per token; a `None` result encodes as null and only it does; the array reads back as the same tokens |
| `Tokens.EncodeRoundTrip` | spacyHttp/__main__.py:61-66 | The encoded array reads back as the same tokens in the same order |
| `Text.LowerChar` | spacyHttp/__main__.py:38 | An upper-case letter maps to its lower-case partner; every other character is kept |
| `Text.Lower` | spacyHttp/__main__.py:38 | Lower-casing keeps the length and every character that is not an upper-case letter, and turns each upper-case letter into its lower-case partner |
| `Text.TrimStart` | spacyHttp/__main__.py:38 | The result is a suffix of the input, only whitespace was dropped, and it does not start with whitespace |
| `Text.TrimEnd` | spacyHttp/__main__.py:38 | The result is a prefix of the input, only whitespace was dropped, and it does not end with whitespace |
| `Text.Strip` | spacyHttp/__main__.py:38 | Stripping returns the slice between the leading and the trailing whitespace, with no whitespace at either end |
| `Text.StripIdempotent` | spacyHttp/__main__.py:38 | Stripping a stripped string changes nothing |
| `Text.StripKeepsLowerCase` | spacyHttp/__main__.py:38 | Stripping a lower-case string leaves it lower-case |
| `Text.NormaliseIdempotent` | spacyHttp/__main__.py:38 | Lower-casing then stripping is a normal form: applying it again changes nothing |
| `Handlers.LemmaOf` | spacyHttp/__main__.py:35-40 | A `-PRON-` lemma gives the element's lower-cased surface form; any other lemma gives the lower-cased raw lemma stripped of whitespace, which is lower-case, unpadded and never the sentinel |
| `Handlers.LowerCaseIsNotSentinel` | spacyHttp/__main__.py:37-38 | No lower-case string equals the `-PRON-` sentinel, so a normalised lemma can never be mistaken for it |
| `Handlers.LemmaIdempotent` | spacyHttp/__main__.py:35-40 | Feeding a normalised non-pronoun lemma back through the rule returns it unchanged |
| `Handlers.EntityLabel` | spacyHttp/__main__.py:54-56 | The label is absent exactly when the entity type is empty, and otherwise is marker, hyphen, type |
| `Handlers.Tag` | spacyHttp/__main__.py:42-47 | One token per document element, in document order, with the element's text, tag and normalised lemma and never an entity |
| `Handlers.Ner` | spacyHttp/__main__.py:49-58 | Unavailable exactly when no entity pipeline is configured; otherwise one token per element, in order, with text, tag and lemma as in `tag` and an entity exactly when the type is non-empty |
| `Handlers.NerExtendsTag` | spacyHttp/__main__.py:42-58 | On documents that agree in everything but the entity attributes, as the tagging pipeline loaded without entity recognition gives, `ner`'s tokens with their entity erased are exactly `tag`'s tokens |
| `Handlers.SplitLabelRoundTrip` | spacyHttp/__main__.py:55 | A label joined from a hyphen-free marker and a type splits back into that marker and type |
| `Handlers.NerLabelsSplit` | spacyHttp/__main__.py:54-56 | Every label `ner` emits has a non-empty type and, for a hyphen-free marker, splits back into marker and type |
| `Server.Target` | spacyHttp/__main__.py:73-75 | The callback made for `/tag` runs `tag` and for `/ner` runs `ner`; it yields `None` only for `ner` without an entity pipeline |
| `Server.RouteTable` | spacyHttp/__main__.py:73-75 | The table starts with `POST /tag`, and has a second route, `POST /ner` with the entity callback, exactly when there is an entity pipeline; every route is POST, and the entity callback appears only with an entity pipeline |
| `Server.App.constructor` | spacyHttp/__main__.py:71-75 | The new application's route table is `/tag` and, only with an entity pipeline, `/ner` after it, both for POST |
| `Server.App.AddRoute` | spacyHttp/__main__.py:73-75 | Registering a route appends it to the table and changes nothing else |
| `Server.TagAlwaysRouted` | spacyHttp/__main__.py:73 | `POST /tag` always reaches the tagging callback |
| `Server.NerRoutedIff` | spacyHttp/__main__.py:74-75 | A `/ner` route exists, for any method, exactly when an entity pipeline is configured, and then `POST /ner` reaches the entity callback |
| `Json.Get` | spacyHttp/__main__.py:80 | `get('sentence', None)` gives the stored value, or a falsy null when the key is absent |
| `Json.Truthy` | spacyHttp/__main__.py:81 | A decoded value is false exactly when it is null, `false`, zero, the empty string, the empty array or the empty object |
| `Server.Respond` | spacyHttp/__main__.py:79-85 | A missing or falsy sentence is rejected with 401 "Missing sentence", and nothing else is; a truthy non-string fails in the pipeline; a string sentence is answered with the encoded result of the callback |
| `Server.Handle` | spacyHttp/__main__.py:79-85 | The closure's outcome is `Respond`'s, and the response's content type becomes `application/json` only when it replies; on rejection it is untouched |
| `Server.AbortIgnoresCallback` | spacyHttp/__main__.py:81-83 | A rejected request's outcome does not depend on the callback, which is never consulted |
| `Server.TagReply` | spacyHttp/__main__.py:79-85 | `POST /tag` with a non-empty sentence answers an array with one object per element, none with an `entity` key, reading back as `tag`'s tokens |
| `Server.NerReply` | spacyHttp/__main__.py:73-85 | Whenever `POST /ner` is routed, a non-empty sentence is answered with an array, never null, with one object per element; an object has `entity` exactly when its element has a type; it reads back as `ner`'s tokens |

## Left out

- `serve`: command-line options, loading the pipelines, removing the parser, logging and running the server with 16 workers. This is configuration, I/O and a concurrent runtime.
- The spaCy pipeline: tokeniser, tagger, lemmatiser and entity recogniser. It is a foreign library, so the model takes it as an arbitrary function from a sentence to element records. The model does not assume that `lower_` is the lower-cased `orth_`, nor that IOB markers are non-empty.
- Server.TagReply: a pipeline is assumed to return a document for every string. A pipeline that raises on a string, such as spaCy's text-length limit or an internal error ending in a 500 response, is not modelled. `Server.Respond`'s claim that `Raised` occurs exactly for a truthy non-string, and `Server.TagReply`'s and `Server.NerReply`'s claim that a non-empty sentence always gets a reply, hold under this assumption.
- Server.Respond: a truthy sentence that is not a string is taken to make the callback raise, because the callback hands it to a pipeline and spaCy raises on a non-string; the outcome `Raised` collapses that exception and the 500 response that follows. This holds for both callbacks `App` registers. A `ner` callback on a handler without an entity pipeline would instead return `None` without looking at the sentence and reply `null`; `App` never registers that callback, so the model does not distinguish it.
- Bottle: parsing the request body, the global `request` and `response` objects, and the `abort` exception. A body is a decoded JSON object. Malformed JSON fails in Bottle's own parser. When the request is not declared as JSON or its body is empty, `request.json` is `None`; for any other body that is not a JSON object (an array, string, number, `true`, `false` or `null`) it is not a dict. In all of those cases `.get` raises in `handle` itself (spacyHttp/__main__.py:80); the model does not cover these bodies. The shared response object is reduced to its content type.
- Server.Lookup: Bottle's router is reduced to the first route matching path and method exactly. The choice between 404 and 405 for an unmatched request is Bottle's and is not modelled. `HasPath` states that no route of any method exists under `/ner` without an entity pipeline.
- Tokens.Encode: `json.dumps` is modelled as a JSON value, not as text. `Encoder.default`'s fall-through to the base encoder only concerns types other than tokens, which never occur.
- Text.Lower: only ASCII letters are lower-cased. Python's full Unicode case mapping, which can also change a string's length, is not modelled. `strip` uses Python's complete whitespace set.
- Idempotence of repeated requests holds by construction: every handler operation here is a function of its inputs.
- `setup.py`: packaging metadata, no logic.
