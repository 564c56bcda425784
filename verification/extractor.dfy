/** `LLMClient.extract_entities` (llm_client.py): the reply of the extraction model is cut
    down to its first JSON object, parsed, repaired once on failure, and degraded to an
    empty extraction when nothing parses. The model call and `json.loads` are oracles. */
module Extractor {
  import opened Wrappers
  import opened PyJson
  import opened JsonSpan

  /** `{"entities": [], "relationships": []}`. */
  const EmptyExtraction: Json := Obj([("entities", Arr([])), ("relationships", Arr([]))])

  /** The fallback chain applied to a raw reply, with `parse` standing for `json.loads`. */
  function ParseReply(raw: string, parse: string -> Option<Json>): (r: Json)
    ensures ExtractFirstJson(raw) == "" ==> r == EmptyExtraction
    ensures r == EmptyExtraction
         || parse(ExtractFirstJson(raw)) == Some(r)
         || parse(Cleanup(ExtractFirstJson(raw))) == Some(r)
  {
    var span := ExtractFirstJson(raw);
    if span == "" then EmptyExtraction
    else
      match parse(span)
      case Some(v) => v
      case None =>
        match parse(Cleanup(span))
        case Some(v) => v
        case None => EmptyExtraction
  }

  /** `extract_entities(story)`, with `reply` standing for the extraction model. */
  function ExtractEntities(story: string, reply: string -> string, parse: string -> Option<Json>): (r: Json)
    ensures var span := ExtractFirstJson(reply(story));
      && (span == "" ==> r == EmptyExtraction)
      && (span != "" && parse(span).Some? ==> r == parse(span).value)
      && (span != "" && parse(span).None? && parse(Cleanup(span)).Some? ==> r == parse(Cleanup(span)).value)
      && (span != "" && parse(span).None? && parse(Cleanup(span)).None? ==> r == EmptyExtraction)
  {
    ParseReply(reply(story), parse)
  }

  /** A reply without any `}` never yields a span. */
  lemma NoCloseNoSpan(raw: string)
    requires '}' !in raw
    ensures ExtractFirstJson(raw) == ""
  {
    var r := ExtractFirstJson(raw);
    if r != "" {
      BalancedEndsWithClose(r);
    }
  }

  /** A truncated reply degrades to the empty extraction, whatever the parser does. */
  lemma TruncatedReplyIsEmpty(parse: string -> Option<Json>)
    ensures ParseReply("{\"entities\": [{\"name\": \"Goblin\"", parse) == EmptyExtraction
  {
    NoCloseNoSpan("{\"entities\": [{\"name\": \"Goblin\"");
  }

  /** Prose around one well-formed object: the object's parse is returned. */
  lemma WrappedObjectParsed(pre: string, obj: string, post: string, parse: string -> Option<Json>, v: Json)
    requires '{' !in pre && Balanced(obj)
    requires parse(obj) == Some(v)
    ensures ParseReply(pre + obj + post, parse) == v
  {
    ExtractFromWrapped(pre, obj, post);
  }

  /** An object that parses only after the trailing-comma repair is returned repaired. */
  lemma WrappedObjectRepaired(pre: string, obj: string, post: string, parse: string -> Option<Json>, v: Json)
    requires '{' !in pre && Balanced(obj)
    requires parse(obj) == None && parse(Cleanup(obj)) == Some(v)
    ensures ParseReply(pre + obj + post, parse) == v
  {
    ExtractFromWrapped(pre, obj, post);
  }

  /** When neither the span nor its repair parses, the extraction is empty. */
  lemma UnparsableIsEmpty(pre: string, obj: string, post: string, parse: string -> Option<Json>)
    requires '{' !in pre && Balanced(obj)
    requires parse(obj) == None && parse(Cleanup(obj)) == None
    ensures ParseReply(pre + obj + post, parse) == EmptyExtraction
  {
    ExtractFromWrapped(pre, obj, post);
  }
}
