/**
 * The attribute expander of the JavaScript token pipeline
 * (modules/parser/ext.core.AttributeExpander.js): tag tokens with attributes
 * are copied and handed to an attribute transform manager, which finishes
 * either synchronously or later through _returnAttributes; every other token
 * is stamped with the expander's rank and passed on.
 */
module AttributeExpander {
  import opened Wrappers
  import opened Tokens

  /** The rank of the expander in the token transform pipeline. */
  const Rank: real := 1.11

  /** The constructor of a token object. */
  datatype Kind = TagTk | SelfclosingTagTk | StringObject(s: string) | OtherToken

  /** A JavaScript token object: its constructor, name, attributes (undefined or an array) and rank. */
  class JsToken {
    var kind: Kind
    var name: string
    var attribs: Option<seq<KV>>
    var rank: Option<real>

    constructor(kind: Kind, name: string, attribs: Option<seq<KV>>, rank: Option<real>)
      ensures this.kind == kind && this.name == name && this.attribs == attribs && this.rank == rank
    {
      this.kind := kind;
      this.name := name;
      this.attribs := attribs;
      this.rank := rank;
    }
  }

  /** A token as handed to onToken: a primitive string or a token object. */
  datatype JsValue = Prim(s: string) | Ref(obj: JsToken)

  /** What onToken returns: {token} or {async: true}. */
  datatype Reply = TokenReply(token: JsValue) | AsyncReply

  /** One invocation of the pipeline callback cb(tokens, false). */
  datatype CallbackCall = CallbackCall(tokens: seq<JsValue>, notYetDone: bool)

  /**
   * How the attribute transform manager's process() goes: it calls back
   * _returnAttributes with the expanded attributes before returning true, or
   * it returns false and calls back later.
   */
  datatype Expansion = Synchronous(attributes: seq<KV>) | Asynchronous

  /** The expandData record shared with the manager's callback: the copied token, the async flag and the callback's calls. */
  class ExpandData {
    var token: JsToken
    var async: bool
    var calls: seq<CallbackCall>

    constructor(token: JsToken)
      ensures this.token == token && !async && calls == []
    {
      this.token := token;
      async := false;
      calls := [];
    }
  }

  /** A tag token with a non-empty attribute array: the tokens whose attributes get expanded. */
  predicate Expandable(t: JsToken)
    reads t
  {
    (t.kind.TagTk? || t.kind.SelfclosingTagTk?) && t.attribs.Some? && |t.attribs.value| > 0
  }

  /** JavaScript truthiness of a rank: undefined and 0 are false. */
  predicate TruthyRank(r: Option<real>) {
    r.Some? && r.value != 0.0
  }

  /**
   * _returnAttributes: the copy takes the expanded attributes; only when the
   * expansion went asynchronous is the copy ranked and passed to the callback,
   * exactly once, as not the last batch.
   */
  method ReturnAttributes(expandData: ExpandData, attributes: seq<KV>)
    modifies expandData, expandData.token
    ensures expandData.token == old(expandData.token) && expandData.async == old(expandData.async)
    ensures expandData.token.attribs == Some(attributes)
    ensures expandData.token.kind == old(expandData.token.kind) && expandData.token.name == old(expandData.token.name)
    ensures expandData.token.rank == if expandData.async then Some(Rank) else old(expandData.token.rank)
    ensures expandData.calls ==
      if expandData.async then old(expandData.calls) + [CallbackCall([Ref(expandData.token)], false)]
      else old(expandData.calls)
  {
    expandData.token.attribs := Some(attributes);
    if expandData.async {
      expandData.token.rank := Some(Rank);
      expandData.calls := expandData.calls + [CallbackCall([Ref(expandData.token)], false)];
    }
  }

  /**
   * onToken: an expandable tag token is copied (with its attribute array) and
   * the copy expanded, so the caller's token is left as it was; a synchronous
   * expansion returns the copy without calling back, an asynchronous one
   * marks expandData async and returns {async: true}. Any other token gets the
   * rank, on a fresh String wrapper when it is a string without a rank.
   */
  method OnToken(token: JsValue, expansion: Expansion) returns (reply: Reply, expandData: ExpandData?)
    modifies if token.Ref? then {token.obj} else {}
    ensures token.Ref? && old(Expandable(token.obj)) ==>
      && unchanged(token.obj)
      && expandData != null && fresh(expandData) && fresh(expandData.token)
      && expandData.token.kind == token.obj.kind && expandData.token.name == token.obj.name
      && expandData.token.rank == token.obj.rank
      && expandData.calls == []
      && match expansion
         case Synchronous(attributes) =>
           && reply == TokenReply(Ref(expandData.token))
           && expandData.token.attribs == Some(attributes)
           && !expandData.async
         case Asynchronous =>
           && reply == AsyncReply
           && expandData.token.attribs == token.obj.attribs
           && expandData.async
    ensures !(token.Ref? && old(Expandable(token.obj))) ==>
      && expandData == null
      && reply.TokenReply? && reply.token.Ref?
      && reply.token.obj.rank == Some(Rank)
      && (token.Prim? || (token.obj.kind.StringObject? && !old(TruthyRank(token.obj.rank))) ==>
            fresh(reply.token.obj) && reply.token.obj.kind == StringObject(if token.Prim? then token.s else token.obj.kind.s))
      && (token.Ref? && token.obj.kind.StringObject? && !old(TruthyRank(token.obj.rank)) ==> unchanged(token.obj))
      && (token.Ref? && !(token.obj.kind.StringObject? && !old(TruthyRank(token.obj.rank))) ==>
            && reply.token.obj == token.obj && token.obj.kind == old(token.obj.kind)
            && token.obj.name == old(token.obj.name) && token.obj.attribs == old(token.obj.attribs))
  {
    if token.Ref? && Expandable(token.obj) {
      var t := token.obj;
      var copy := new JsToken(t.kind, t.name, Some(t.attribs.value[..]), t.rank);
      expandData := new ExpandData(copy);
      match expansion {
        case Synchronous(attributes) =>
          ReturnAttributes(expandData, attributes);
          reply := TokenReply(Ref(copy));
        case Asynchronous =>
          expandData.async := true;
          reply := AsyncReply;
      }
    } else {
      expandData := null;
      var obj: JsToken;
      match token {
        case Prim(s) =>
          obj := new JsToken(StringObject(s), "", None, None);
        case Ref(t) =>
          if !TruthyRank(t.rank) && t.kind.StringObject? {
            obj := new JsToken(StringObject(t.kind.s), "", None, None);
          } else {
            obj := t;
          }
      }
      obj.rank := Some(Rank);
      reply := TokenReply(Ref(obj));
    }
  }
}
