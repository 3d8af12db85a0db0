/**
 * The token model shared by the core, and the operations of the key/value
 * pair KV (src/Tokens/KV.php). A KV key or value is a string, a single token,
 * an array of tokens, or (for values) an array of KVs; the variants are
 * explicit here instead of being inspected at run time.
 */
module Tokens {
  import opened Wrappers
  import opened Text

  /** A range of source offsets; either end may be unknown (null). */
  datatype SourceRange = SourceRange(start: Option<int>, end: Option<int>)

  /** Offsets of a KV's key and of its value in the wikitext. */
  datatype Span = Span(start: int, end: int)
  datatype KVSourceRange = KVSourceRange(key: Span, value: Span)

  /** The part of a token's data-parsoid the core reads: its source range and source text. */
  datatype DataParsoid = DataParsoid(tsr: Option<SourceRange>, src: Option<string>)

  datatype Token =
    | TagTk(name: string, attribs: seq<KV>, dataAttribs: DataParsoid)
    | EndTagTk(name: string, attribs: seq<KV>, dataAttribs: DataParsoid)
    | SelfclosingTagTk(name: string, attribs: seq<KV>, dataAttribs: DataParsoid)
    | CommentTk(value: string)
    | NlTk
    | EOFTk
    /** A bare string standing as an element of a token array. */
    | Str(text: string)

  /** What a KV key or value holds. */
  datatype KVPart =
    | StrPart(s: string)
    | TokenPart(t: Token)
    | TokensPart(ts: seq<Token>)
    | KVsPart(kvs: seq<KV>)

  /** The KV constructor only stores its five arguments. */
  datatype KV = KV(k: KVPart, v: KVPart, srcOffsets: Option<KVSourceRange>, ksrc: Option<string>, vsrc: Option<string>)

  /** A plain string key/value pair without offsets, as `new KV( $k, $v )` builds it. */
  function StringKV(k: string, v: string): KV {
    KV(StrPart(k), StrPart(v), None, None, None)
  }

  /** A KV matches a lookup key when its key is a string whose trimmed form is that key. */
  predicate Matches(kv: KV, key: string) {
    kv.k.StrPart? && Trim(kv.k.s) == key
  }

  /** The index of the first KV of kvs at or after position from that matches key, if any. */
  function FirstMatch(kvs: seq<KV>, key: string, from: nat): (r: Option<nat>)
    requires from <= |kvs|
    ensures r.Some? ==> from <= r.value < |kvs| && Matches(kvs[r.value], key)
    ensures r.Some? ==> forall j :: from <= j < r.value ==> !Matches(kvs[j], key)
    ensures r.None? ==> forall j :: from <= j < |kvs| ==> !Matches(kvs[j], key)
    decreases |kvs| - from
  {
    if from == |kvs| then None
    else if Matches(kvs[from], key) then Some(from)
    else FirstMatch(kvs, key, from + 1)
  }

  /** KV::lookupKV: the first KV whose key is a string trimming to key; null for a null list or no match. */
  function LookupKV(kvs: Option<seq<KV>>, key: string): (r: Option<KV>)
    ensures kvs.None? ==> r.None?
    ensures r.Some? ==> exists i :: 0 <= i < |kvs.value| && kvs.value[i] == r.value && Matches(r.value, key)
                                    && forall j :: 0 <= j < i ==> !Matches(kvs.value[j], key)
    ensures r.None? && kvs.Some? ==> forall j :: 0 <= j < |kvs.value| ==> !Matches(kvs.value[j], key)
  {
    match kvs
    case None => None
    case Some(list) =>
      match FirstMatch(list, key, 0)
      case None => None
      case Some(i) => Some(list[i])
  }

  /** KV::lookup: the value of the first matching KV, or null. */
  function Lookup(kvs: Option<seq<KV>>, key: string): (r: Option<KVPart>)
    ensures kvs.None? ==> r.None?
    ensures r.Some? ==> exists i :: 0 <= i < |kvs.value| && kvs.value[i].v == r.value && Matches(kvs.value[i], key)
                                    && forall j :: 0 <= j < i ==> !Matches(kvs.value[j], key)
    ensures r.None? && kvs.Some? ==> forall j :: 0 <= j < |kvs.value| ==> !Matches(kvs.value[j], key)
  {
    match LookupKV(kvs, key)
    case None => None
    case Some(kv) => Some(kv.v)
  }

  /** A later KV with the same key never changes what lookup finds: the first one wins. */
  lemma {:induction false} LookupFirstWins(kvs: seq<KV>, later: seq<KV>, key: string)
    requires exists i :: 0 <= i < |kvs| && Matches(kvs[i], key)
    ensures LookupKV(Some(kvs + later), key) == LookupKV(Some(kvs), key)
  {
    var all := kvs + later;
    var f := FirstMatch(kvs, key, 0);
    var g := FirstMatch(all, key, 0);
    assert f.Some?;
    assert all[f.value] == kvs[f.value];
    assert g.Some? && g.value <= f.value;
    assert g.value == f.value by {
      assert all[g.value] == kvs[g.value];
    }
  }

  /** KV::keyOffset: the key part of the source offsets, null when there are none. */
  function KeyOffset(kv: KV): (r: Option<Span>)
    ensures r.None? <==> kv.srcOffsets.None?
    ensures r.Some? ==> r.value == kv.srcOffsets.value.key
  {
    match kv.srcOffsets
    case None => None
    case Some(o) => Some(o.key)
  }

  /** KV::valueOffset: the value part of the source offsets, null when there are none. */
  function ValueOffset(kv: KV): (r: Option<Span>)
    ensures r.None? <==> kv.srcOffsets.None?
    ensures r.Some? ==> r.value == kv.srcOffsets.value.value
  {
    match kv.srcOffsets
    case None => None
    case Some(o) => Some(o.value)
  }

  /** A JSON member value of a serialized KV. */
  datatype Json = JPart(part: KVPart) | JOffsets(offsets: KVSourceRange) | JString(s: string)

  /** KV::jsonSerialize: always k and v; srcOffsets, ksrc and vsrc only when set. */
  function JsonSerialize(kv: KV): (r: map<string, Json>)
    ensures "k" in r && r["k"] == JPart(kv.k)
    ensures "v" in r && r["v"] == JPart(kv.v)
    ensures "srcOffsets" in r <==> kv.srcOffsets.Some?
    ensures "srcOffsets" in r ==> r["srcOffsets"] == JOffsets(kv.srcOffsets.value)
    ensures "ksrc" in r <==> kv.ksrc.Some?
    ensures "ksrc" in r ==> r["ksrc"] == JString(kv.ksrc.value)
    ensures "vsrc" in r <==> kv.vsrc.Some?
    ensures "vsrc" in r ==> r["vsrc"] == JString(kv.vsrc.value)
    ensures r.Keys <= {"k", "v", "srcOffsets", "ksrc", "vsrc"}
  {
    var ret := map["k" := JPart(kv.k), "v" := JPart(kv.v)];
    var ret := if kv.srcOffsets.Some? then ret["srcOffsets" := JOffsets(kv.srcOffsets.value)] else ret;
    var ret := if kv.ksrc.Some? then ret["ksrc" := JString(kv.ksrc.value)] else ret;
    if kv.vsrc.Some? then ret["vsrc" := JString(kv.vsrc.value)] else ret
  }
}
