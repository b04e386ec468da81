/** The token record handed back to clients, its serialisation, and the
    encoding of a whole handler result as a JSON document. */
module Tokens {
  import opened Wrappers
  import opened Json

  /** One annotated word: surface text, part-of-speech tag, normalised lemma
      and, on the entity path only, an entity label. The field `lemma_` is the
      record's `lemma` (serialised under that key), renamed because `lemma`
      is a Dafny keyword; it is not the pipeline's raw `lemma_`. */
  datatype Token = Token(text: string, tag: string, lemma_: string, entity: Option<string>)

  /** The keys every serialised token carries. */
  const RequiredKeys: set<string> := {"text", "tag", "lemma"}

  /** `dataclasses.asdict`: one entry per field, an absent entity as null. */
  function AsDict(t: Token): (d: map<string, Json>)
    ensures d.Keys == RequiredKeys + {"entity"}
    ensures d["entity"] == JNull <==> t.entity.None?
    ensures d["text"] == JString(t.text) && d["tag"] == JString(t.tag) && d["lemma"] == JString(t.lemma_)
    ensures t.entity.Some? ==> d["entity"] == JString(t.entity.value)
  {
    map["text" := JString(t.text), "tag" := JString(t.tag), "lemma" := JString(t.lemma_),
        "entity" := if t.entity.Some? then JString(t.entity.value) else JNull]
  }

  /** What a serialised token is: its dictionary without the null entries. */
  function Serialized(t: Token): (d: map<string, Json>)
    ensures d.Keys == RequiredKeys + (if t.entity.Some? then {"entity"} else {})
    ensures "entity" in d <==> t.entity.Some?
    ensures forall k :: k in d ==> d[k].JString?
  {
    var all := AsDict(t);
    map k | k in all && all[k] != JNull :: all[k]
  }

  /** `Token.serialize`: build the full dictionary, then delete the `entity`
      key in place when the token has no entity. */
  method Serialize(t: Token) returns (d: map<string, Json>)
    ensures d == Serialized(t)
    ensures d["text"] == JString(t.text) && d["tag"] == JString(t.tag) && d["lemma"] == JString(t.lemma_)
    ensures t.entity.Some? ==> d["entity"] == JString(t.entity.value)
  {
    d := AsDict(t);
    if t.entity.None? {
      d := d - {"entity"};
    }
  }

  /** Reads a serialised token back; `None` for anything `Serialized` cannot
      produce. */
  function Deserialize(d: map<string, Json>): Option<Token> {
    if && "text" in d && d["text"].JString?
       && "tag" in d && d["tag"].JString?
       && "lemma" in d && d["lemma"].JString?
       && ("entity" in d ==> d["entity"].JString?)
       && d.Keys <= RequiredKeys + {"entity"}
    then
      var entity := if "entity" in d then Some(d["entity"].s) else None;
      Some(Token(d["text"].s, d["tag"].s, d["lemma"].s, entity))
    else
      None
  }

  /** Serialising loses nothing: the token can be read back from its map, so
      distinct tokens have distinct serialisations. */
  lemma SerializeRoundTrip(t: Token)
    ensures Deserialize(Serialized(t)) == Some(t)
  {
    var d := Serialized(t);
    assert d["text"] == JString(t.text) && d["tag"] == JString(t.tag) && d["lemma"] == JString(t.lemma_);
    assert t.entity.Some? ==> d["entity"] == JString(t.entity.value);
  }

  /** The array `json.dumps` writes for a list of tokens, one object per
      token, through `Encoder.default`. */
  function EncodeItems(ts: seq<Token>): seq<Json> {
    seq(|ts|, i requires 0 <= i < |ts| => JObject(Serialized(ts[i])))
  }

  /** `json.dumps(result, cls=Encoder)` as a JSON value: a token list becomes
      an array of serialised tokens, `None` becomes null. */
  function Encode(result: Option<seq<Token>>): (j: Json)
    ensures j == JNull <==> result.None?
    ensures result.Some? ==> j.JArray? && |j.items| == |result.value|
    ensures result.Some? ==> forall i :: 0 <= i < |j.items| ==> j.items[i].JObject?
    ensures result.Some? ==> DecodeItems(j.items) == result
  {
    match result
    case None => JNull
    case Some(ts) =>
      EncodeRoundTrip(ts);
      JArray(EncodeItems(ts))
  }

  /** Reads an array of serialised tokens back, in order. */
  function DecodeItems(items: seq<Json>): Option<seq<Token>> {
    if items == [] then Some([])
    else if !items[0].JObject? then None
    else
      match (Deserialize(items[0].fields), DecodeItems(items[1..]))
      case (Some(t), Some(rest)) => Some([t] + rest)
      case _ => None
  }

  /** Encoding a token list loses neither tokens nor their order. */
  lemma {:induction false} EncodeRoundTrip(ts: seq<Token>)
    ensures DecodeItems(EncodeItems(ts)) == Some(ts)
  {
    if ts != [] {
      var items := EncodeItems(ts);
      assert items[1..] == EncodeItems(ts[1..]);
      SerializeRoundTrip(ts[0]);
      EncodeRoundTrip(ts[1..]);
      assert [ts[0]] + ts[1..] == ts;
    }
  }
}
