/** The annotation handler: runs a language pipeline over a sentence and turns
    each element of the resulting document into a token record. */
module Handlers {
  import opened Wrappers
  import opened Text
  import opened Tokens

  /** The attributes the handler reads from one element of a pipeline
      document: `orth_`, `tag_`, `lemma_`, `lower_`, `ent_iob_`, `ent_type_`. */
  datatype Element = Element(
    orth: string,
    tag: string,
    lemma_: string,
    lower: string,
    entIob: string,
    entType: string)

  /** A loaded pipeline, seen only through the document it returns for a
      sentence. */
  type Pipeline = string -> seq<Element>

  /** The pipelines loaded at startup: one for tagging, and one with entity
      recognition when that was enabled. Neither changes afterwards. */
  datatype Handler = Handler(taggingNlp: Pipeline, nerNlp: Option<Pipeline>)

  /** The raw lemma the pipeline gives every pronoun. */
  const PronounSentinel: string := "-PRON-"

  /** `Handler._lemma`: a pronoun's lemma is its lower-cased surface form;
      any other raw lemma is lower-cased and stripped of surrounding
      whitespace. */
  function LemmaOf(e: Element): (r: string)
    ensures e.lemma_ == PronounSentinel ==> r == e.lower
    ensures e.lemma_ != PronounSentinel ==> r == Strip(Lower(e.lemma_))
    ensures e.lemma_ != PronounSentinel ==> Unpadded(r) && IsLowerCase(r) && r != PronounSentinel
  {
    if e.lemma_ != PronounSentinel then
      var r := Strip(Lower(e.lemma_));
      StripKeepsLowerCase(Lower(e.lemma_));
      LowerCaseIsNotSentinel(r);
      r
    else
      e.lower
  }

  /** The sentinel has upper-case letters, so no lower-case string equals it. */
  lemma LowerCaseIsNotSentinel(s: string)
    requires IsLowerCase(s)
    ensures s != PronounSentinel
  {
    assert IsUpper(PronounSentinel[1]);
  }

  /** Normalising a normalised lemma again changes nothing. */
  lemma LemmaIdempotent(e: Element)
    requires e.lemma_ != PronounSentinel
    ensures LemmaOf(e.(lemma_ := LemmaOf(e))) == LemmaOf(e)
  {
    NormaliseIdempotent(e.lemma_);
  }

  /** The token both handler methods build for one document element, before
      any entity is attached. */
  function Annotate(e: Element): Token {
    Token(e.orth, e.tag, LemmaOf(e), None)
  }

  /** The entity label `ner` attaches: the IOB marker and the entity type
      joined by a hyphen, present only for a non-empty type. */
  function EntityLabel(e: Element): (r: Option<string>)
    ensures r.None? <==> e.entType == ""
    ensures r.Some? ==> r.value == e.entIob + "-" + e.entType
  {
    if e.entType != "" then Some(e.entIob + "-" + e.entType) else None
  }

  /** `Handler.tag`: one token per document element, in document order,
      never with an entity. */
  function Tag(h: Handler, sentence: string): (r: seq<Token>)
    ensures var doc := h.taggingNlp(sentence);
      && |r| == |doc|
      && forall i :: 0 <= i < |r| ==>
           && r[i].text == doc[i].orth
           && r[i].tag == doc[i].tag
           && r[i].lemma_ == LemmaOf(doc[i])
           && r[i].entity.None?
  {
    var doc := h.taggingNlp(sentence);
    seq(|doc|, i requires 0 <= i < |doc| => Annotate(doc[i]))
  }

  /** `Handler.ner`: unavailable without an entity pipeline; otherwise one
      token per document element, in order, carrying its entity label. */
  function Ner(h: Handler, sentence: string): (r: Option<seq<Token>>)
    ensures r.None? <==> h.nerNlp.None?
    ensures r.Some? ==> var doc := h.nerNlp.value(sentence);
      && |r.value| == |doc|
      && forall i :: 0 <= i < |doc| ==>
           && r.value[i].text == doc[i].orth
           && r.value[i].tag == doc[i].tag
           && r.value[i].lemma_ == LemmaOf(doc[i])
           && (r.value[i].entity.None? <==> doc[i].entType == "")
           && (r.value[i].entity.Some? ==> r.value[i].entity.value == doc[i].entIob + "-" + doc[i].entType)
  {
    match h.nerNlp
    case None => None
    case Some(nlp) =>
      var doc := nlp(sentence);
      Some(seq(|doc|, i requires 0 <= i < |doc| => Annotate(doc[i]).(entity := EntityLabel(doc[i]))))
  }

  /** Two documents that agree element by element in everything but the
      entity attributes, as the entity pipeline's and the tagging pipeline's
      (loaded without entity recognition) do. */
  predicate SameButEntities(d1: seq<Element>, d2: seq<Element>) {
    |d1| == |d2| &&
    forall i :: 0 <= i < |d1| ==> d1[i].(entIob := "", entType := "") == d2[i].(entIob := "", entType := "")
  }

  /** On documents that differ only in their entity attributes, `ner` yields
      exactly `tag`'s tokens with entity labels added. */
  lemma NerExtendsTag(h: Handler, sentence: string)
    requires h.nerNlp.Some?
    requires SameButEntities(h.nerNlp.value(sentence), h.taggingNlp(sentence))
    ensures |Ner(h, sentence).value| == |Tag(h, sentence)|
    ensures forall i :: 0 <= i < |Tag(h, sentence)| ==>
      Ner(h, sentence).value[i].(entity := None) == Tag(h, sentence)[i]
  {
  }

  /** Splits an entity label at its first hyphen into marker and type. */
  function SplitLabel(joined: string): Option<(string, string)> {
    if joined == [] then None
    else if joined[0] == '-' then Some(([], joined[1..]))
    else
      match SplitLabel(joined[1..])
      case None => None
      case Some((marker, kind)) => Some(([joined[0]] + marker, kind))
  }

  /** An entity label splits back into its marker and type whenever the
      marker has no hyphen of its own. */
  lemma {:induction false} SplitLabelRoundTrip(marker: string, kind: string)
    requires '-' !in marker
    ensures SplitLabel(marker + "-" + kind) == Some((marker, kind))
  {
    var joined := marker + "-" + kind;
    if marker != [] {
      assert joined[0] == marker[0] && joined[1..] == marker[1..] + "-" + kind;
      SplitLabelRoundTrip(marker[1..], kind);
      assert [marker[0]] + marker[1..] == marker;
    } else {
      assert joined[1..] == kind;
    }
  }

  /** Every entity label `ner` emits names a non-empty entity type and, for
      a hyphen-free IOB marker, splits back into that marker and type. */
  lemma NerLabelsSplit(h: Handler, sentence: string, i: nat)
    requires h.nerNlp.Some?
    requires i < |h.nerNlp.value(sentence)|
    requires '-' !in h.nerNlp.value(sentence)[i].entIob
    ensures var e := h.nerNlp.value(sentence)[i];
      var t := Ner(h, sentence).value[i];
      t.entity.Some? ==> SplitLabel(t.entity.value) == Some((e.entIob, e.entType)) && e.entType != ""
  {
    var e := h.nerNlp.value(sentence)[i];
    SplitLabelRoundTrip(e.entIob, e.entType);
  }
}
