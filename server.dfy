/** The HTTP application: the route table built at startup and the request
    handler each route runs. */
module Server {
  import opened Wrappers
  import opened Json
  import opened Tokens
  import opened Handlers

  /** Which handler method a route's callback wraps. */
  datatype Callback = TagCallback | NerCallback

  /** One registered route: path, HTTP method and callback. */
  datatype Route = Route(path: string, verb: string, callback: Callback)

  /** The handler method a callback was made from, as `make_callback`
      receives it: `handler.tag` or `handler.ner`. */
  function Target(h: Handler, c: Callback): (f: string -> Option<seq<Token>>)
    ensures c.TagCallback? ==> forall s :: f(s) == Some(Tag(h, s))
    ensures c.NerCallback? ==> forall s :: f(s) == Ner(h, s)
    ensures forall s :: f(s).None? <==> c.NerCallback? && h.nerNlp.None?
  {
    match c
    case TagCallback => (s: string) => Some(Tag(h, s))
    case NerCallback => (s: string) => Ner(h, s)
  }

  /** The routes `App.__init__` registers for a handler, in order. */
  function RouteTable(h: Handler): (routes: seq<Route>)
    ensures |routes| == if h.nerNlp.Some? then 2 else 1
    ensures routes[0] == Route("/tag", "POST", TagCallback)
    ensures h.nerNlp.Some? ==> routes[1] == Route("/ner", "POST", NerCallback)
    ensures forall i :: 0 <= i < |routes| ==> routes[i].verb == "POST"
    ensures forall i :: 0 <= i < |routes| && routes[i].callback == NerCallback ==> h.nerNlp.Some?
  {
    [Route("/tag", "POST", TagCallback)]
    + if h.nerNlp.Some? then [Route("/ner", "POST", NerCallback)] else []
  }

  /** Whether any route, for any HTTP method, is registered under `path`. */
  predicate HasPath(routes: seq<Route>, path: string) {
    exists i :: 0 <= i < |routes| && routes[i].path == path
  }

  /** The callback of the first route matching `path` and `verb`. */
  function Lookup(routes: seq<Route>, path: string, verb: string): Option<Callback> {
    if routes == [] then None
    else if routes[0].path == path && routes[0].verb == verb then Some(routes[0].callback)
    else Lookup(routes[1..], path, verb)
  }

  /** The application object: a handler and the route table that grows as
      routes are registered. */
  class App {
    const handler: Handler
    var routes: seq<Route>

    /** `App.__init__`: `/tag` always, `/ner` only with an entity pipeline. */
    constructor (handler: Handler)
      ensures this.handler == handler
      ensures routes == RouteTable(handler)
    {
      this.handler := handler;
      routes := [];
      new;
      AddRoute("/tag", "POST", TagCallback);
      if handler.nerNlp.Some? {
        AddRoute("/ner", "POST", NerCallback);
      }
    }

    /** Registers one more route after the existing ones. */
    method AddRoute(path: string, verb: string, callback: Callback)
      modifies this`routes
      ensures routes == old(routes) + [Route(path, verb, callback)]
    {
      routes := routes + [Route(path, verb, callback)];
    }
  }

  /** `POST /tag` reaches the tagging callback, whatever was configured. */
  lemma TagAlwaysRouted(h: Handler)
    ensures HasPath(RouteTable(h), "/tag")
    ensures Lookup(RouteTable(h), "/tag", "POST") == Some(TagCallback)
  {
    assert RouteTable(h)[0].path == "/tag";
  }

  /** A `/ner` route exists, for any HTTP method, exactly when an entity
      pipeline was configured, and then `POST /ner` reaches the entity
      callback. */
  lemma NerRoutedIff(h: Handler)
    ensures HasPath(RouteTable(h), "/ner") <==> h.nerNlp.Some?
    ensures Lookup(RouteTable(h), "/ner", "POST") == if h.nerNlp.Some? then Some(NerCallback) else None
  {
    var routes := RouteTable(h);
    assert routes[0].path != "/ner" by {
      assert routes[0].path[1] == 't';
    }
    if h.nerNlp.Some? {
      assert routes[1].path == "/ner";
      assert routes[1..] == [Route("/ner", "POST", NerCallback)];
    } else {
      assert routes == [Route("/tag", "POST", TagCallback)];
    }
  }

  /** What a callback does with a request: rejected by the client, answered
      with a JSON document, or failed because the pipeline was handed a
      value that is not a string. */
  datatype Outcome = Aborted(status: int, message: string) | Replied(payload: Json) | Raised

  const MissingSentence: string := "Missing sentence"

  /** The outcome of the `handle` closure for a decoded JSON body. */
  function Respond(f: string -> Option<seq<Token>>, body: map<string, Json>): (r: Outcome)
    ensures var sentence := Get(body, "sentence");
      && (r.Aborted? <==> !Truthy(sentence))
      && (r.Aborted? ==> r.status == 401 && r.message == MissingSentence)
      && (r.Raised? <==> Truthy(sentence) && !sentence.JString?)
      && (r.Replied? ==> sentence.JString? && r.payload == Encode(f(sentence.s)))
  {
    var sentence := Get(body, "sentence");
    if !Truthy(sentence) then Aborted(401, MissingSentence)
    else if !sentence.JString? then Raised
    else Replied(Encode(f(sentence.s)))
  }

  /** The part of the shared response object the handler writes. */
  class ResponseHeaders {
    var contentType: string

    constructor (contentType: string)
      ensures this.contentType == contentType
    {
      this.contentType := contentType;
    }
  }

  /** The `handle` closure: rejects a missing or falsy sentence before the
      callback runs; otherwise runs it, marks the response as JSON and
      returns the encoded tokens. */
  method Handle(f: string -> Option<seq<Token>>, body: map<string, Json>, response: ResponseHeaders)
    returns (r: Outcome)
    modifies response
    ensures r == Respond(f, body)
    ensures response.contentType == if r.Replied? then "application/json" else old(response.contentType)
  {
    var sentence := Get(body, "sentence");
    if !Truthy(sentence) {
      return Aborted(401, MissingSentence);
    }
    if !sentence.JString? {
      return Raised;
    }
    var tokens := f(sentence.s);
    response.contentType := "application/json";
    r := Replied(Encode(tokens));
  }

  /** A rejected request never depends on the callback: it is turned away
      before the handler method is consulted. */
  lemma AbortIgnoresCallback(f: string -> Option<seq<Token>>, g: string -> Option<seq<Token>>, body: map<string, Json>)
    requires !Truthy(Get(body, "sentence"))
    ensures Respond(f, body) == Respond(g, body) == Aborted(401, MissingSentence)
  {
  }

  /** `POST /tag` with a non-empty sentence answers an array with one object
      per document element, none with an `entity` key, from which the tagged
      tokens read back in order. */
  lemma TagReply(h: Handler, body: map<string, Json>, sentence: string)
    requires Get(body, "sentence") == JString(sentence) && sentence != ""
    ensures var r := Respond(Target(h, TagCallback), body);
      && r.Replied? && r.payload.JArray?
      && |r.payload.items| == |h.taggingNlp(sentence)|
      && (forall i :: 0 <= i < |r.payload.items| ==>
            r.payload.items[i].JObject? && "entity" !in r.payload.items[i].fields)
      && DecodeItems(r.payload.items) == Some(Tag(h, sentence))
  {
    var tokens := Tag(h, sentence);
    assert Target(h, TagCallback)(sentence) == Some(tokens);
    EncodeRoundTrip(tokens);
  }

  /** Whenever `POST /ner` is routed, a non-empty sentence is answered with an
      array (never null) with one object per document element; an object has
      an `entity` key exactly when its element has an entity type, and the
      tokens read back in order. */
  lemma NerReply(h: Handler, body: map<string, Json>, sentence: string)
    requires Lookup(RouteTable(h), "/ner", "POST").Some?
    requires Get(body, "sentence") == JString(sentence) && sentence != ""
    ensures h.nerNlp.Some?
    ensures var r := Respond(Target(h, Lookup(RouteTable(h), "/ner", "POST").value), body);
      var doc := h.nerNlp.value(sentence);
      && r.Replied? && r.payload.JArray?
      && |r.payload.items| == |doc|
      && (forall i :: 0 <= i < |doc| ==>
            r.payload.items[i].JObject? && ("entity" in r.payload.items[i].fields <==> doc[i].entType != ""))
      && DecodeItems(r.payload.items) == Ner(h, sentence)
  {
    NerRoutedIff(h);
    var tokens := Ner(h, sentence).value;
    assert Target(h, NerCallback)(sentence) == Some(tokens);
    EncodeRoundTrip(tokens);
    var items := EncodeItems(tokens);
    forall i | 0 <= i < |items|
      ensures items[i].JObject? && ("entity" in items[i].fields <==> h.nerNlp.value(sentence)[i].entType != "")
    {
      assert items[i] == JObject(Serialized(tokens[i]));
    }
  }
}
