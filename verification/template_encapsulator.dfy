/**
 * The template encapsulator (src/Wt2Html/TT/TemplateEncapsulator.php): it wraps
 * the expanded tokens of a template call between a start and an end meta
 * token sharing one `about` id, and builds the argument-info record of the
 * call: its target, the ordered parameter infos and the parameter dictionary.
 *
 * The argument-info loop and isSimpleParam are methods with loops, proved
 * against the declarative description below (KeyAt, InfoAt, EntryAt,
 * FirstIndices, ...): the key every argument resolves to, the entry it writes,
 * which argument first introduces a key and which one last writes it.
 */
module TemplateEncapsulator {
  import opened Wrappers
  import opened Text
  import opened Tokens

  /**
   * TokenUtils::tokensToString applied to a key: a string, or None when it
   * returns an array (the key held tokens other than text and comments).
   */
  type TokensToString = KVPart -> Option<string>

  /** The fields of the encapsulator: the frame's source text and the template token's attributes and data. */
  datatype Encapsulator = Encapsulator(
    frameSrc: string,
    attribs: seq<KV>,
    tokenData: DataParsoid,
    wrapperType: string,
    wrappedObjectId: string,
    parserFunctionName: Option<string>,
    resolvedTemplateTarget: Option<string>)

  /** Non-standard spacing around a parameter: key prefix and suffix, value prefix and suffix. */
  datatype Spc = Spc(keyPre: string, keyPost: string, valuePre: string, valuePost: string)

  datatype ParamInfo = ParamInfo(k: string, srcOffsets: Option<KVSourceRange>, named: bool, spc: Option<Spc>)

  /** A dictionary entry: the value wikitext, the original key wikitext when it differs, and the HTML form when computed. */
  datatype Param = Param(wt: string, keyWt: Option<string>, html: Option<string>)

  datatype Target = Target(wt: Option<string>, parserFunction: Option<string>, href: Option<string>)

  datatype ArgInfo = ArgInfo(target: Target, params: map<string, Param>, paramInfos: seq<ParamInfo>)

  /**
   * The errors PHP throws here: cloning a null tsr, and trim() of a key or
   * value that is not a string (an argument without offsets whose key or
   * value holds tokens); index is the position of that argument in attribs.
   */
  datatype Error = NullTsr | NonStringSource(index: nat)

  /** SourceRange::substr on a KV span: the slice of src, clamped to the string. */
  function Substr(src: string, r: Span): (s: string)
    ensures 0 <= r.start <= r.end <= |src| ==> s == src[r.start..r.end]
  {
    var lo := if r.start < 0 then 0 else if r.start > |src| then |src| else r.start;
    var hi := if r.end < lo then lo else if r.end > |src| then |src| else r.end;
    src[lo..hi]
  }

  // ---------------------------------------------------------------------------
  // The declarative description of getArgInfo

  /** The arguments are every attribute but the first, which is the template target. */
  function Args(e: Encapsulator): (args: seq<KV>)
    ensures |args| == if |e.attribs| == 0 then 0 else |e.attribs| - 1
    ensures forall j :: 0 <= j < |args| ==> args[j] == e.attribs[j + 1]
  {
    if |e.attribs| == 0 then [] else e.attribs[1..]
  }

  /** The wikitext of the key and of the value: from the offsets when present, else the KV's own strings. */
  function ArgSource(kv: KV, src: string): Option<(string, string)> {
    match kv.srcOffsets
    case Some(o) => Some((Substr(src, o.key), Substr(src, o.value)))
    case None => if kv.k.StrPart? && kv.v.StrPart? then Some((kv.k.s, kv.v.s)) else None
  }

  /** The regex captures of the key and value source, and the spacing record they give. */
  function SpcOf(kSrc: string, vSrc: string, positional: bool, v: string): Option<Spc> {
    var km := SpaceAround(kSrc);
    var vm := if positional then ("", "") else if v != "" then SpaceAround(vSrc) else ("", vSrc);
    if Truthy(km.0) || Truthy(km.1) || Truthy(vm.0) || Truthy(vm.1) then Some(Spc(km.0, km.1, vm.0, vm.1))
    else None
  }

  /**
   * What one argument contributes on its own: its key and value source, the
   * trimmed key source, its name (the trimmed string its key tokens convert
   * to, or the trimmed key source when they do not convert to a string),
   * whether it is positional, its value (the source as is when positional,
   * trimmed otherwise), its spacing record and its offsets.
   */
  datatype Arg = Arg(kSrc: string, vSrc: string, kWt: string, name: string, positional: bool,
                     v: string, spc: Option<Spc>, offsets: Option<KVSourceRange>)

  /** The analysis of an argument whose key and value source are kSrc and vSrc. */
  function Analyse(kv: KV, kSrc: string, vSrc: string, tts: TokensToString): Arg {
    var kWt := Trim(kSrc);
    var name := match tts(kv.k) case Some(s) => Trim(s) case None => kWt;
    var positional := name == "" && kv.srcOffsets.Some? && kv.srcOffsets.value.key.end == kv.srcOffsets.value.value.start;
    var v := if positional then vSrc else Trim(vSrc);
    Arg(kSrc, vSrc, kWt, name, positional, v, SpcOf(kSrc, vSrc, positional, v), kv.srcOffsets)
  }

  /** The first p arguments all have string sources (PHP's trim() throws on the first that does not). */
  predicate AllSourced(args: seq<KV>, src: string, p: nat)
    requires p <= |args|
  {
    forall j :: 0 <= j < p ==> ArgSource(args[j], src).Some?
  }

  /** The analysis of argument j. */
  function AnalyseAt(args: seq<KV>, src: string, tts: TokensToString, j: nat): Arg
    requires j < |args| && ArgSource(args[j], src).Some?
  {
    var s := ArgSource(args[j], src).value;
    Analyse(args[j], s.0, s.1, tts)
  }

  /** The analyses of the first p arguments. */
  function AnalysePrefix(args: seq<KV>, src: string, tts: TokensToString, p: nat): (xs: seq<Arg>)
    requires p <= |args| && AllSourced(args, src, p)
    ensures |xs| == p
  {
    if p == 0 then []
    else
      AnalysePrefix(args, src, tts, p - 1) + [AnalyseAt(args, src, tts, p - 1)]
  }

  /** The analyses of all arguments of the call. */
  function Analysis(e: Encapsulator, tts: TokensToString): seq<Arg>
    requires AllSourced(Args(e), e.frameSrc, |Args(e)|)
  {
    AnalysePrefix(Args(e), e.frameSrc, tts, |Args(e)|)
  }

  /**
   * An argument is positional exactly when its name is empty, it has offsets
   * and its value starts where its key ends; a named argument's value is
   * trimmed; the spacing record holds exactly the whitespace trimmed away.
   */
  lemma AnalyseMeaning(kv: KV, kSrc: string, vSrc: string, tts: TokensToString)
    ensures Analyse(kv, kSrc, vSrc, tts).kWt == Trim(kSrc)
    ensures tts(kv.k).None? ==> Analyse(kv, kSrc, vSrc, tts).name == Trim(kSrc)
    ensures tts(kv.k).Some? ==> Analyse(kv, kSrc, vSrc, tts).name == Trim(tts(kv.k).value)
    ensures Analyse(kv, kSrc, vSrc, tts).positional <==>
      Analyse(kv, kSrc, vSrc, tts).name == "" && kv.srcOffsets.Some? && kv.srcOffsets.value.key.end == kv.srcOffsets.value.value.start
    ensures Analyse(kv, kSrc, vSrc, tts).v == if Analyse(kv, kSrc, vSrc, tts).positional then vSrc else Trim(vSrc)
    ensures Analyse(kv, kSrc, vSrc, tts).spc.Some? <==> kSrc != Trim(kSrc) || (!Analyse(kv, kSrc, vSrc, tts).positional && vSrc != Trim(vSrc))
    ensures Analyse(kv, kSrc, vSrc, tts).spc.Some? ==>
      kSrc == Analyse(kv, kSrc, vSrc, tts).spc.value.keyPre + Trim(kSrc) + Analyse(kv, kSrc, vSrc, tts).spc.value.keyPost
    ensures Analyse(kv, kSrc, vSrc, tts).spc.Some? && !Analyse(kv, kSrc, vSrc, tts).positional ==>
      vSrc == Analyse(kv, kSrc, vSrc, tts).spc.value.valuePre + Trim(vSrc) + Analyse(kv, kSrc, vSrc, tts).spc.value.valuePost
    ensures var a := Analyse(kv, kSrc, vSrc, tts);
      a.spc.Some? ==> AllSpace(a.spc.value.keyPre) && AllSpace(a.spc.value.keyPost)
    ensures var a := Analyse(kv, kSrc, vSrc, tts);
      a.spc.Some? && Trim(kSrc) == "" ==> a.spc.value.keyPre == kSrc && a.spc.value.keyPost == ""
    ensures var a := Analyse(kv, kSrc, vSrc, tts);
      a.spc.Some? && !a.positional ==> AllSpace(a.spc.value.valuePre) && AllSpace(a.spc.value.valuePost)
    ensures var a := Analyse(kv, kSrc, vSrc, tts);
      a.spc.Some? && !a.positional && Trim(vSrc) == "" ==> a.spc.value.valuePre == "" && a.spc.value.valuePost == vSrc
  {
    SpcOfMeaning(kSrc, vSrc, Analyse(kv, kSrc, vSrc, tts).positional);
    SpcOfValue(kSrc, vSrc, Analyse(kv, kSrc, vSrc, tts).positional);
  }


  /**
   * The spacing record is kept exactly when the key source, or the source of
   * a named value, has surrounding whitespace; it then holds that whitespace.
   */
  lemma SpcOfMeaning(kSrc: string, vSrc: string, positional: bool)
    ensures SpcOf(kSrc, vSrc, positional, if positional then vSrc else Trim(vSrc)).Some? <==>
      kSrc != Trim(kSrc) || (!positional && vSrc != Trim(vSrc))
    ensures SpcOf(kSrc, vSrc, positional, if positional then vSrc else Trim(vSrc)).Some? ==>
      kSrc == SpcOf(kSrc, vSrc, positional, if positional then vSrc else Trim(vSrc)).value.keyPre + Trim(kSrc) +
              SpcOf(kSrc, vSrc, positional, if positional then vSrc else Trim(vSrc)).value.keyPost
    ensures var spc := SpcOf(kSrc, vSrc, positional, if positional then vSrc else Trim(vSrc));
      spc.Some? ==> AllSpace(spc.value.keyPre) && AllSpace(spc.value.keyPost)
    ensures var spc := SpcOf(kSrc, vSrc, positional, if positional then vSrc else Trim(vSrc));
      spc.Some? && Trim(kSrc) == "" ==> spc.value.keyPre == kSrc && spc.value.keyPost == ""
  {
    TrimMeaning(kSrc);
    SpaceCaptured(kSrc);
    if !positional {
      if Trim(vSrc) != "" {
        SpaceCaptured(vSrc);
      } else {
        BlankCaptured(vSrc);
      }
    }
    SpaceAroundMeaning(kSrc);
  }

  /** The value half of the spacing record: empty for a positional argument, else the whitespace around the value. */
  lemma SpcOfValue(kSrc: string, vSrc: string, positional: bool)
    ensures SpcOf(kSrc, vSrc, positional, if positional then vSrc else Trim(vSrc)).Some? && positional ==>
      SpcOf(kSrc, vSrc, positional, vSrc).value.valuePre == "" && SpcOf(kSrc, vSrc, positional, vSrc).value.valuePost == ""
    ensures SpcOf(kSrc, vSrc, positional, if positional then vSrc else Trim(vSrc)).Some? && !positional ==>
      vSrc == SpcOf(kSrc, vSrc, positional, Trim(vSrc)).value.valuePre + Trim(vSrc) + SpcOf(kSrc, vSrc, positional, Trim(vSrc)).value.valuePost
    ensures var spc := SpcOf(kSrc, vSrc, positional, Trim(vSrc));
      spc.Some? && !positional ==> AllSpace(spc.value.valuePre) && AllSpace(spc.value.valuePost)
    ensures var spc := SpcOf(kSrc, vSrc, positional, Trim(vSrc));
      spc.Some? && !positional && Trim(vSrc) == "" ==> spc.value.valuePre == "" && spc.value.valuePost == vSrc
  {
    if !positional {
      TrimMeaning(vSrc);
      if Trim(vSrc) != "" {
        SpaceAroundMeaning(vSrc);
      } else {
        assert vSrc == "" + Trim(vSrc) + vSrc;
      }
    }
  }

  /** A string has surrounding whitespace exactly when one of its two captures is truthy. */
  lemma SpaceCaptured(s: string)
    ensures Truthy(SpaceAround(s).0) || Truthy(SpaceAround(s).1) <==> s != Trim(s)
  {
    var c := SpaceAround(s);
    SpaceAroundMeaning(s);
    SpaceTruthy(c.0);
    SpaceTruthy(c.1);
    assert |s| == |c.0| + |Trim(s)| + |c.1|;
  }

  /** An all-whitespace string differs from its (empty) trim exactly when it is truthy. */
  lemma BlankCaptured(s: string)
    requires Trim(s) == ""
    ensures Truthy(s) <==> s != Trim(s)
  {
    TrimMeaning(s);
    SpaceTruthy(s);
  }

  /** The number of positional arguments among xs. */
  function PositionalCount(xs: seq<Arg>): nat {
    if xs == [] then 0 else PositionalCount(xs[..|xs| - 1]) + (if xs[|xs| - 1].positional then 1 else 0)
  }

  /** The key an argument resolves to after count positional arguments: the next number, or its name. */
  function KeyOf(x: Arg, count: nat): string {
    if x.positional then NatToString(count + 1) else x.name
  }

  /** The key argument j resolves to. */
  function KeyAt(xs: seq<Arg>, j: nat): string
    requires j < |xs|
  {
    KeyOf(xs[j], PositionalCount(xs[..j]))
  }

  /** What registering an argument records: its parameter info, whose k is the key, and its dictionary entry. */
  datatype Registration = Registration(info: ParamInfo, entry: Param)

  /**
   * The registration of argument x under key k: the info is named exactly
   * when x is not positional, and the entry keeps the key wikitext only for a
   * named argument whose trimmed key source differs from k.
   */
  function RegistrationOf(x: Arg, k: string): Registration {
    Registration(ParamInfo(k, x.offsets, !x.positional, x.spc),
                 Param(x.v, if !x.positional && x.kWt != k then Some(x.kWt) else None, None))
  }

  /** The registrations of the arguments, in order, each under the key it resolves to. */
  function Registrations(xs: seq<Arg>): (rs: seq<Registration>)
    ensures |rs| == |xs|
  {
    if xs == [] then []
    else
      var prefix := xs[..|xs| - 1];
      Registrations(prefix) + [RegistrationOf(xs[|xs| - 1], KeyOf(xs[|xs| - 1], PositionalCount(prefix)))]
  }

  /** The dictionary after the given registrations: each one overwrites the entry of its key. */
  function DictOf(rs: seq<Registration>): map<string, Param> {
    if rs == [] then map[]
    else DictOf(rs[..|rs| - 1])[rs[|rs| - 1].info.k := rs[|rs| - 1].entry]
  }

  /** The parameter infos after the given registrations: one is added only when its key is new. */
  function InfosOf(rs: seq<Registration>): seq<ParamInfo> {
    if rs == [] then []
    else if rs[|rs| - 1].info.k in DictOf(rs[..|rs| - 1]) then InfosOf(rs[..|rs| - 1])
    else InfosOf(rs[..|rs| - 1]) + [rs[|rs| - 1].info]
  }

  /** The keys the registrations are made under. */
  ghost function KeysOf(rs: seq<Registration>): set<string> {
    set r | r in rs :: r.info.k
  }

  /** Registration j is the first under its key. */
  ghost predicate IsFirst(rs: seq<Registration>, j: nat)
    requires j < |rs|
  {
    forall m :: 0 <= m < j ==> rs[m].info.k != rs[j].info.k
  }

  /** Registration j is the last under its key. */
  ghost predicate IsLast(rs: seq<Registration>, j: nat)
    requires j < |rs|
  {
    forall m :: j < m < |rs| ==> rs[m].info.k != rs[j].info.k
  }

  /** The registrations among the first p that introduce a new key, in order. */
  ghost function FirstIndices(rs: seq<Registration>, p: nat): (idx: seq<nat>)
    requires p <= |rs|
    ensures forall m :: 0 <= m < |idx| ==> idx[m] < p
  {
    if p == 0 then [] else FirstIndices(rs, p - 1) + (if IsFirst(rs, p - 1) then [p - 1] else [])
  }

  /** The parameter infos of the given registrations, in order. */
  ghost function InfosAt(rs: seq<Registration>, idx: seq<nat>): (infos: seq<ParamInfo>)
    requires forall m :: 0 <= m < |idx| ==> idx[m] < |rs|
    ensures |infos| == |idx|
  {
    if idx == [] then [] else InfosAt(rs, idx[..|idx| - 1]) + [rs[idx[|idx| - 1]].info]
  }

  lemma {:induction false} InfosAtIndex(rs: seq<Registration>, idx: seq<nat>, m: nat)
    requires forall a :: 0 <= a < |idx| ==> idx[a] < |rs|
    requires m < |idx|
    ensures InfosAt(rs, idx)[m] == rs[idx[m]].info
    decreases |idx|
  {
    if m < |idx| - 1 {
      InfosAtIndex(rs, idx[..|idx| - 1], m);
    }
  }

  /** The argument info describes the registrations, the html of its entries aside. */
  predicate DescribesArgs(rs: seq<Registration>, info: ArgInfo) {
    && info.paramInfos == InfosOf(rs)
    && info.params.Keys == DictOf(rs).Keys
    && forall k :: k in info.params ==> info.params[k].(html := None) == DictOf(rs)[k]
  }

  // ---------------------------------------------------------------------------
  // Lemmas about the description

  /** Argument j is registered under the key it resolves to. */
  lemma {:induction false} RegistrationsAt(xs: seq<Arg>, j: nat)
    requires j < |xs|
    ensures Registrations(xs)[j] == RegistrationOf(xs[j], KeyAt(xs, j))
    decreases |xs|
  {
    var prefix := xs[..|xs| - 1];
    if j < |xs| - 1 {
      RegistrationsAt(prefix, j);
      assert prefix[..j] == xs[..j];
    }
  }

  /** getArgInfo records no html in any entry. */
  lemma RegistrationsNoHtml(xs: seq<Arg>)
    ensures forall j :: 0 <= j < |xs| ==> Registrations(xs)[j].entry.html.None?
  {
    forall j | 0 <= j < |xs| ensures Registrations(xs)[j].entry.html.None? {
      RegistrationsAt(xs, j);
    }
  }

  lemma {:induction false} PositionalCountGrows(xs: seq<Arg>, i: nat, j: nat)
    requires i < j <= |xs| && xs[i].positional
    ensures PositionalCount(xs[..j]) > PositionalCount(xs[..i])
    decreases j
  {
    assert xs[..j][..j - 1] == xs[..j - 1];
    if j > i + 1 {
      PositionalCountGrows(xs, i, j - 1);
    }
  }

  /** Two positional arguments never share a key: each takes the next number. */
  lemma PositionalKeysDistinct(xs: seq<Arg>, i: nat, j: nat)
    requires i < j < |xs| && xs[i].positional && xs[j].positional
    ensures KeyAt(xs, i) != KeyAt(xs, j)
  {
    PositionalCountGrows(xs, i, j);
    NatToStringInjective(PositionalCount(xs[..i]) + 1, PositionalCount(xs[..j]) + 1);
  }

  /** A positional argument's key reads back as its 1-based rank among the positional arguments. */
  lemma PositionalKeyIsRank(xs: seq<Arg>, j: nat)
    requires j < |xs| && xs[j].positional
    ensures IsDigits(KeyAt(xs, j)) && DecimalValue(KeyAt(xs, j)) == PositionalCount(xs[..j + 1])
  {
    assert xs[..j + 1][..j] == xs[..j];
    DecimalRoundTrip(PositionalCount(xs[..j]) + 1);
  }

  /** The indices of FirstIndices increase, and each is the first occurrence of its key. */
  lemma {:induction false} FirstIndicesSound(rs: seq<Registration>, p: nat)
    requires p <= |rs|
    ensures forall a, b :: 0 <= a < b < |FirstIndices(rs, p)| ==> FirstIndices(rs, p)[a] < FirstIndices(rs, p)[b]
    ensures forall a :: 0 <= a < |FirstIndices(rs, p)| ==> IsFirst(rs, FirstIndices(rs, p)[a])
  {
    if p > 0 {
      var prev := FirstIndices(rs, p - 1);
      FirstIndicesSound(rs, p - 1);
      var idx := FirstIndices(rs, p);
      var tail := if IsFirst(rs, p - 1) then [p - 1] else [];
      assert idx == prev + tail;
      forall a | 0 <= a < |idx| ensures IsFirst(rs, idx[a]) && (a < |prev| ==> idx[a] == prev[a]) {
        if a < |prev| {
          assert idx[a] == prev[a];
        } else {
          assert idx[a] == p - 1;
        }
      }
      forall a, b | 0 <= a < b < |idx| ensures idx[a] < idx[b] {
        assert idx[a] == prev[a];
        if b < |prev| {
          assert idx[b] == prev[b];
        }
      }
    }
  }

  /** Every key of the first p registrations is introduced by some index of FirstIndices: the a-th. */
  lemma {:induction false} FirstIndicesComplete(rs: seq<Registration>, p: nat, j: nat) returns (a: nat)
    requires j < p <= |rs|
    ensures a < |FirstIndices(rs, p)| && rs[FirstIndices(rs, p)[a]].info.k == rs[j].info.k
    decreases p, j
  {
    if j < p - 1 {
      a := FirstIndicesComplete(rs, p - 1, j);
      FirstIndicesGrow(rs, p, a);
    } else if IsFirst(rs, j) {
      a := |FirstIndices(rs, p - 1)|;
    } else {
      var m :| 0 <= m < j && rs[m].info.k == rs[j].info.k;
      a := FirstIndicesComplete(rs, p - 1, m);
      FirstIndicesGrow(rs, p, a);
    }
  }

  /** FirstIndices only grows at the end as p grows. */
  lemma FirstIndicesGrow(rs: seq<Registration>, p: nat, a: nat)
    requires 0 < p <= |rs| && a < |FirstIndices(rs, p - 1)|
    ensures a < |FirstIndices(rs, p)| && FirstIndices(rs, p)[a] == FirstIndices(rs, p - 1)[a]
  {
  }

  /** The dictionary holds exactly the keys registered. */
  lemma {:induction false} DictOfKeys(rs: seq<Registration>)
    ensures DictOf(rs).Keys == KeysOf(rs)
    decreases |rs|
  {
    if rs != [] {
      var prefix := rs[..|rs| - 1];
      var r := rs[|rs| - 1];
      assert rs == prefix + [r];
      AppendRegistration(prefix, r, rs);
      DictOfKeys(prefix);
      ExtendKeys(prefix, r, rs);
    }
  }

  /** The entry of a key is the one written by its last registration. */
  lemma {:induction false} DictOfLastWins(rs: seq<Registration>)
    ensures forall j :: 0 <= j < |rs| && IsLast(rs, j) ==> rs[j].info.k in DictOf(rs) && DictOf(rs)[rs[j].info.k] == rs[j].entry
    decreases |rs|
  {
    if rs != [] {
      var prefix := rs[..|rs| - 1];
      var r := rs[|rs| - 1];
      assert rs == prefix + [r];
      AppendRegistration(prefix, r, rs);
      DictOfLastWins(prefix);
      ExtendLastWins(prefix, r, rs, DictOf(prefix));
    }
  }

  /** An entry of the dictionary has html only if some registration wrote it with html. */
  lemma {:induction false} DictOfNoHtml(rs: seq<Registration>)
    requires forall j :: 0 <= j < |rs| ==> rs[j].entry.html.None?
    ensures forall k :: k in DictOf(rs) ==> DictOf(rs)[k].html.None?
    decreases |rs|
  {
    if rs != [] {
      var prefix := rs[..|rs| - 1];
      assert forall j :: 0 <= j < |prefix| ==> prefix[j] == rs[j];
      DictOfNoHtml(prefix);
    }
  }

  /** The parameter infos are those of the first registrations of the keys, in order. */
  lemma {:induction false} InfosOfFirstOccurrences(rs: seq<Registration>)
    ensures InfosOf(rs) == InfosAt(rs, FirstIndices(rs, |rs|))
    decreases |rs|
  {
    if rs != [] {
      var prefix := rs[..|rs| - 1];
      var r := rs[|rs| - 1];
      assert rs == prefix + [r];
      AppendRegistration(prefix, r, rs);
      InfosOfFirstOccurrences(prefix);
      DictOfKeys(prefix);
      ExtendFirst(prefix, r, rs, DictOf(prefix));
      ExtendInfos(prefix, r, rs);
    }
  }

  /** Info a carries the key of the a-th first registration. */
  lemma InfoKeysAreFirstKeys(rs: seq<Registration>)
    ensures |InfosOf(rs)| == |FirstIndices(rs, |rs|)|
    ensures forall a :: 0 <= a < |InfosOf(rs)| ==> InfosOf(rs)[a].k == rs[FirstIndices(rs, |rs|)[a]].info.k
  {
    var idx := FirstIndices(rs, |rs|);
    InfosOfFirstOccurrences(rs);
    forall a | 0 <= a < |idx|
      ensures InfosOf(rs)[a].k == rs[idx[a]].info.k
    {
      InfosAtIndex(rs, idx, a);
    }
  }

  /** No two parameter infos share a key. */
  lemma ParamInfosDistinct(rs: seq<Registration>)
    ensures forall a, b :: 0 <= a < b < |InfosOf(rs)| ==> InfosOf(rs)[a].k != InfosOf(rs)[b].k
  {
    var idx := FirstIndices(rs, |rs|);
    InfoKeysAreFirstKeys(rs);
    FirstIndicesSound(rs, |rs|);
    forall a, b | 0 <= a < b < |InfosOf(rs)|
      ensures InfosOf(rs)[a].k != InfosOf(rs)[b].k
    {
      assert idx[a] < idx[b] && IsFirst(rs, idx[b]);
    }
  }

  /** A key is in the dictionary exactly when some parameter info carries it. */
  lemma ParamInfosCoverDictionary(rs: seq<Registration>)
    ensures forall k :: k in DictOf(rs) <==> exists a :: 0 <= a < |InfosOf(rs)| && InfosOf(rs)[a].k == k
  {
    var n := |rs|;
    var idx := FirstIndices(rs, n);
    var infos := InfosOf(rs);
    InfoKeysAreFirstKeys(rs);
    DictOfKeys(rs);
    forall k | k in DictOf(rs)
      ensures exists a :: 0 <= a < |infos| && infos[a].k == k
    {
      var r :| r in rs && r.info.k == k;
      var j :| 0 <= j < n && rs[j] == r;
      var a := FirstIndicesComplete(rs, n, j);
      assert infos[a].k == k;
    }
    forall k | exists a :: 0 <= a < |infos| && infos[a].k == k
      ensures k in DictOf(rs)
    {
      var a :| 0 <= a < |infos| && infos[a].k == k;
      assert idx[a] < n && rs[idx[a]] in rs;
    }
  }

  /** Every registered key is in the dictionary, with the entry written by its last registration. */
  lemma {:induction false} LastOccurrenceWins(rs: seq<Registration>, j: nat) returns (l: nat)
    requires j < |rs|
    ensures rs[j].info.k in DictOf(rs)
    ensures j <= l < |rs| && rs[l].info.k == rs[j].info.k && IsLast(rs, l) && DictOf(rs)[rs[j].info.k] == rs[l].entry
    decreases |rs| - j
  {
    DictOfLastWins(rs);
    if IsLast(rs, j) {
      l := j;
    } else {
      var m :| j < m < |rs| && rs[m].info.k == rs[j].info.k;
      l := LastOccurrenceWins(rs, m);
    }
  }


  /** Every argument's key is in the dictionary. */
  lemma ArgKeyRegistered(xs: seq<Arg>, j: nat)
    requires j < |xs|
    ensures KeyAt(xs, j) in DictOf(Registrations(xs))
  {
    var rs := Registrations(xs);
    RegistrationsAt(xs, j);
    DictOfKeys(rs);
    assert rs[j] in rs;
  }

  /**
   * The last argument with a key decides its dictionary entry: its value, and
   * its trimmed key source only when it is named and that differs from the key.
   */
  lemma ArgEntry(xs: seq<Arg>, l: nat)
    requires l < |xs| && forall m :: l < m < |xs| ==> KeyAt(xs, m) != KeyAt(xs, l)
    ensures KeyAt(xs, l) in DictOf(Registrations(xs))
    ensures DictOf(Registrations(xs))[KeyAt(xs, l)] ==
      Param(xs[l].v, if !xs[l].positional && xs[l].kWt != KeyAt(xs, l) then Some(xs[l].kWt) else None, None)
  {
    var rs := Registrations(xs);
    RegistrationsAt(xs, l);
    forall m | l < m < |xs| ensures rs[m].info.k != rs[l].info.k {
      RegistrationsAt(xs, m);
    }
    assert IsLast(rs, l);
    DictOfLastWins(rs);
  }

  /**
   * The first argument with a key contributes the parameter info of that key:
   * the key, its offsets, named exactly when the argument is not positional,
   * and its spacing record.
   */
  lemma ArgParamInfo(xs: seq<Arg>, j: nat)
    requires j < |xs| && forall m :: 0 <= m < j ==> KeyAt(xs, m) != KeyAt(xs, j)
    ensures ParamInfo(KeyAt(xs, j), xs[j].offsets, !xs[j].positional, xs[j].spc) in InfosOf(Registrations(xs))
  {
    var rs := Registrations(xs);
    ArgKeyRegistered(xs, j);
    ParamInfosCoverDictionary(rs);
    var a :| 0 <= a < |InfosOf(rs)| && InfosOf(rs)[a].k == KeyAt(xs, j);
    RegistrationsAt(xs, j);
    FirstArgIsFirst(xs, j);
    FirstInfo(rs, a, j);
  }

  /** The info carrying the key of the first registration under it is that registration's info. */
  lemma FirstInfo(rs: seq<Registration>, a: nat, j: nat)
    requires a < |InfosOf(rs)| && j < |rs| && InfosOf(rs)[a].k == rs[j].info.k && IsFirst(rs, j)
    ensures InfosOf(rs)[a] == rs[j].info
  {
    var idx := FirstIndices(rs, |rs|);
    InfosOfFirstOccurrences(rs);
    FirstIndicesSound(rs, |rs|);
    InfosAtIndex(rs, idx, a);
    FirstIsUnique(rs, idx[a], j);
  }

  /** The first argument with its key makes the first registration under that key. */
  lemma FirstArgIsFirst(xs: seq<Arg>, j: nat)
    requires j < |xs| && forall m :: 0 <= m < j ==> KeyAt(xs, m) != KeyAt(xs, j)
    ensures IsFirst(Registrations(xs), j)
  {
    RegistrationsAt(xs, j);
    forall m | 0 <= m < j ensures Registrations(xs)[m].info.k != Registrations(xs)[j].info.k {
      RegistrationsAt(xs, m);
    }
  }

  /** Two registrations that are both the first under the same key are the same one. */
  lemma FirstIsUnique(rs: seq<Registration>, f: nat, g: nat)
    requires f < |rs| && g < |rs| && IsFirst(rs, f) && IsFirst(rs, g) && rs[f].info.k == rs[g].info.k
    ensures f == g
  {
  }

  /** The target, attribs[0], takes no part in the analysis: calls that differ only there analyse alike. */
  lemma TargetNotAnArgument(e: Encapsulator, e': Encapsulator, tts: TokensToString)
    requires |e.attribs| == |e'.attribs| > 0 && e.attribs[1..] == e'.attribs[1..] && e.frameSrc == e'.frameSrc
    ensures AllSourced(Args(e), e.frameSrc, |Args(e)|) <==> AllSourced(Args(e'), e'.frameSrc, |Args(e')|)
    ensures AllSourced(Args(e), e.frameSrc, |Args(e)|) ==> Analysis(e, tts) == Analysis(e', tts)
  {
    assert Args(e) == Args(e');
  }

  // ---------------------------------------------------------------------------
  // The operations

  /** The target record: its wikitext when params[0] has offsets, and the function name or else the resolved href. */
  function TargetOf(e: Encapsulator): (t: Target)
    ensures t.wt.Some? <==> |e.attribs| > 0 && e.attribs[0].srcOffsets.Some?
    ensures t.wt.Some? ==> t.wt.value == Substr(e.frameSrc, e.attribs[0].srcOffsets.value.key)
    ensures !(t.parserFunction.Some? && t.href.Some?)
    ensures t.parserFunction == e.parserFunctionName
    ensures t.href.Some? <==> e.parserFunctionName.None? && e.resolvedTemplateTarget.Some?
    ensures t.href.Some? ==> t.href == e.resolvedTemplateTarget
  {
    var wt := if |e.attribs| > 0 && e.attribs[0].srcOffsets.Some?
      then Some(Substr(e.frameSrc, e.attribs[0].srcOffsets.value.key)) else None;
    if e.parserFunctionName.Some? then Target(wt, e.parserFunctionName, None)
    else if e.resolvedTemplateTarget.Some? then Target(wt, None, e.resolvedTemplateTarget)
    else Target(wt, None, None)
  }

  /**
   * getArgInfo: walks the arguments after the target, numbering positional
   * ones, registering a parameter info for the first occurrence of each key
   * and overwriting the dictionary entry on every occurrence. It fails, as
   * PHP's trim() throws, on the first argument whose source is not a string.
   */
  method GetArgInfo(e: Encapsulator, tts: TokensToString) returns (r: Result<ArgInfo, Error>)
    ensures r.Failure? <==> !AllSourced(Args(e), e.frameSrc, |Args(e)|)
    ensures r.Failure? ==>
      && r.error.NonStringSource? && 1 <= r.error.index <= |Args(e)|
      && AllSourced(Args(e), e.frameSrc, r.error.index - 1)
      && ArgSource(e.attribs[r.error.index], e.frameSrc).None?
    ensures r.Success? ==> AllSourced(Args(e), e.frameSrc, |Args(e)|)
    ensures r.Success? ==> r.value.params == DictOf(Registrations(Analysis(e, tts))) && r.value.paramInfos == InfosOf(Registrations(Analysis(e, tts)))
    ensures r.Success? ==> r.value.target == TargetOf(e)
  {
    ghost var args := Args(e);
    ghost var xs: seq<Arg> := [];
    var src := e.frameSrc;
    var params := e.attribs;
    var dict: map<string, Param> := map[];
    var paramInfos: seq<ParamInfo> := [];
    var argIndex: nat := 1;
    var i := 1;
    while i < |params|
      invariant 1 <= i && i - 1 <= |args|
      invariant AllSourced(args, src, i - 1) && xs == AnalysePrefix(args, src, tts, i - 1)
      invariant argIndex == PositionalCount(xs) + 1
      invariant dict == DictOf(Registrations(xs)) && paramInfos == InfosOf(Registrations(xs))
    {
      var kv := params[i];
      assert kv == args[i - 1];
      var srcs := ArgSource(kv, src);
      if srcs.None? {
        return Failure(NonStringSource(i));
      }
      var arg := Analyse(kv, srcs.value.0, srcs.value.1, tts);
      dict, paramInfos, argIndex := RegisterArg(xs, arg, dict, paramInfos, argIndex);
      assert AllSourced(args, src, i);
      xs := xs + [arg];
      i := i + 1;
    }
    r := Success(ArgInfo(TargetOf(e), dict, paramInfos));
  }

  /**
   * One step of getArgInfo after the argument is analysed: a positional
   * argument takes the next number as its key, a new key gets a parameter
   * info, and the key's dictionary entry is (over)written.
   */
  method RegisterArg(ghost xs: seq<Arg>, arg: Arg, dict: map<string, Param>, paramInfos: seq<ParamInfo>, argIndex: nat)
    returns (dict': map<string, Param>, paramInfos': seq<ParamInfo>, argIndex': nat)
    requires argIndex == PositionalCount(xs) + 1
    requires dict == DictOf(Registrations(xs)) && paramInfos == InfosOf(Registrations(xs))
    ensures argIndex' == PositionalCount(xs + [arg]) + 1
    ensures dict' == DictOf(Registrations(xs + [arg])) && paramInfos' == InfosOf(Registrations(xs + [arg]))
  {
    var k := arg.name;
    argIndex' := argIndex;
    if arg.positional {
      k := NatToString(argIndex);
      argIndex' := argIndex + 1;
    }
    ghost var reg := RegistrationOf(arg, KeyOf(arg, PositionalCount(xs)));
    AppendArg(xs, arg, xs + [arg], reg);
    assert k == KeyOf(arg, PositionalCount(xs));
    dict', paramInfos' := Register(Registrations(xs), RegistrationOf(arg, k), dict, paramInfos);
  }

  /** Registering under a key: a new key gets the parameter info, and the key's entry is (over)written. */
  method Register(ghost rs: seq<Registration>, reg: Registration, dict: map<string, Param>, paramInfos: seq<ParamInfo>)
    returns (dict': map<string, Param>, paramInfos': seq<ParamInfo>)
    requires dict == DictOf(rs) && paramInfos == InfosOf(rs)
    ensures dict' == DictOf(rs + [reg]) && paramInfos' == InfosOf(rs + [reg])
  {
    AppendRegistration(rs, reg, rs + [reg]);
    paramInfos' := paramInfos;
    if reg.info.k !in dict {
      paramInfos' := paramInfos + [reg.info];
    }
    dict' := dict[reg.info.k := reg.entry];
  }

  /** Each argument is analysed on its own: entry j of the analyses is the analysis of argument j. */
  lemma {:induction false} AnalysePrefixAt(args: seq<KV>, src: string, tts: TokensToString, p: nat, j: nat)
    requires p <= |args| && AllSourced(args, src, p) && j < p
    ensures AnalysePrefix(args, src, tts, p)[j] == AnalyseAt(args, src, tts, j)
  {
    var prev := AnalysePrefix(args, src, tts, p - 1);
    var last := AnalyseAt(args, src, tts, p - 1);
    assert AnalysePrefix(args, src, tts, p) == prev + [last];
    if j < p - 1 {
      AnalysePrefixAt(args, src, tts, p - 1, j);
      assert (prev + [last])[j] == prev[j];
    } else {
      assert (prev + [last])[j] == last;
    }
  }

  /** Appending an argument adds one to the count when it is positional, and appends its registration. */
  lemma AppendArg(xs: seq<Arg>, a: Arg, ys: seq<Arg>, reg: Registration)
    requires ys == xs + [a] && reg == RegistrationOf(a, KeyOf(a, PositionalCount(xs)))
    ensures PositionalCount(ys) == PositionalCount(xs) + (if a.positional then 1 else 0)
    ensures Registrations(ys) == Registrations(xs) + [reg]
  {
    assert ys[..|xs|] == xs;
  }

  /** What appending one registration does to the dictionary and the infos. */
  lemma AppendRegistration(rs: seq<Registration>, r: Registration, ys: seq<Registration>)
    requires ys == rs + [r]
    ensures DictOf(ys) == DictOf(rs)[r.info.k := r.entry]
    ensures InfosOf(ys) == if r.info.k in DictOf(rs) then InfosOf(rs) else InfosOf(rs) + [r.info]
  {
    assert ys[..|rs|] == rs;
  }

  lemma {:induction false} FirstIndicesPrefix(rs: seq<Registration>, r: Registration, p: nat)
    requires p <= |rs|
    ensures FirstIndices(rs + [r], p) == FirstIndices(rs, p)
  {
    if p > 0 {
      FirstIndicesPrefix(rs, r, p - 1);
      IsFirstPrefix(rs, r, p - 1);
    }
  }

  lemma IsFirstPrefix(rs: seq<Registration>, r: Registration, j: nat)
    requires j < |rs|
    ensures IsFirst(rs + [r], j) == IsFirst(rs, j)
  {
    assert forall m :: 0 <= m <= j ==> (rs + [r])[m] == rs[m];
  }

  lemma {:induction false} InfosAtPrefix(rs: seq<Registration>, r: Registration, idx: seq<nat>)
    requires forall m :: 0 <= m < |idx| ==> idx[m] < |rs|
    ensures InfosAt(rs + [r], idx) == InfosAt(rs, idx)
    decreases |idx|
  {
    if idx != [] {
      InfosAtPrefix(rs, r, idx[..|idx| - 1]);
      assert (rs + [r])[idx[|idx| - 1]] == rs[idx[|idx| - 1]];
    }
  }

  /** The keys with one registration appended are the earlier keys and the new one. */
  lemma ExtendKeys(rs: seq<Registration>, r: Registration, ys: seq<Registration>)
    requires ys == rs + [r]
    ensures KeysOf(ys) == KeysOf(rs) + {r.info.k}
  {
    forall x | x in KeysOf(ys) ensures x in KeysOf(rs) + {r.info.k} {
      var y :| y in ys && y.info.k == x;
      if y != r {
        assert y in rs;
      }
    }
    forall x | x in KeysOf(rs) ensures x in KeysOf(ys) {
      var y :| y in rs && y.info.k == x;
      assert y in ys;
    }
    assert r in ys;
  }

  /** The new key is already in the dictionary exactly when the new registration is not the first under it. */
  lemma ExtendFirst(rs: seq<Registration>, r: Registration, ys: seq<Registration>, dict: map<string, Param>)
    requires ys == rs + [r]
    requires dict.Keys == KeysOf(rs)
    ensures r.info.k in dict <==> !IsFirst(ys, |rs|)
  {
    if r.info.k in dict {
      var y :| y in rs && y.info.k == r.info.k;
      var j :| 0 <= j < |rs| && rs[j] == y;
      assert ys[j] == y;
    }
    if !IsFirst(ys, |rs|) {
      var j :| 0 <= j < |rs| && ys[j].info.k == r.info.k;
      assert ys[j] == rs[j] && rs[j] in rs;
    }
  }

  /** Overwriting the new key keeps every entry equal to that of its key's last registration. */
  lemma ExtendLastWins(rs: seq<Registration>, r: Registration, ys: seq<Registration>, dict: map<string, Param>)
    requires ys == rs + [r]
    requires forall j :: 0 <= j < |rs| && IsLast(rs, j) ==> rs[j].info.k in dict && dict[rs[j].info.k] == rs[j].entry
    ensures forall j :: 0 <= j < |ys| && IsLast(ys, j) ==>
      ys[j].info.k in dict[r.info.k := r.entry] && dict[r.info.k := r.entry][ys[j].info.k] == ys[j].entry
  {
    forall j | 0 <= j < |rs| && IsLast(ys, j)
      ensures ys[j].info.k in dict[r.info.k := r.entry] && dict[r.info.k := r.entry][ys[j].info.k] == ys[j].entry
    {
      assert ys[j] == rs[j];
      assert IsLast(rs, j) by {
        forall m | j < m < |rs| ensures rs[m].info.k != rs[j].info.k {
          assert ys[m] == rs[m];
        }
      }
      assert ys[|rs|] == r;
    }
  }

  /** The info list grows by the new registration's info exactly when it introduces a new key. */
  lemma ExtendInfos(rs: seq<Registration>, r: Registration, ys: seq<Registration>)
    requires ys == rs + [r]
    ensures IsFirst(ys, |rs|) ==> InfosAt(ys, FirstIndices(ys, |ys|)) == InfosAt(rs, FirstIndices(rs, |rs|)) + [r.info]
    ensures !IsFirst(ys, |rs|) ==> InfosAt(ys, FirstIndices(ys, |ys|)) == InfosAt(rs, FirstIndices(rs, |rs|))
  {
    var idx := FirstIndices(rs, |rs|);
    FirstIndicesPrefix(rs, r, |rs|);
    InfosAtPrefix(rs, r, idx);
    var idx' := FirstIndices(ys, |ys|);
    if IsFirst(ys, |rs|) {
      assert idx' == idx + [|rs|];
      assert idx'[..|idx'| - 1] == idx;
    } else {
      assert idx' == idx;
    }
  }


  // ---------------------------------------------------------------------------
  // Encapsulation

  /** The typeof and about attributes of a meta token. */
  function MetaAttribs(typeOf: string, id: string): seq<KV> {
    [StringKV("typeof", typeOf), StringKV("about", "#" + id)]
  }

  /** getEncapsulationInfo: the start meta, which copies the call's tsr (PHP fails cloning a null one), then the chunk. */
  function GetEncapsulationInfo(e: Encapsulator, chunk: seq<Token>): (r: Result<seq<Token>, Error>)
    ensures r.Failure? <==> e.tokenData.tsr.None?
    ensures r.Failure? ==> r.error == NullTsr
    ensures r.Success? ==> |r.value| == |chunk| + 1 && r.value[1..] == chunk
    ensures r.Success? ==> r.value[0] == SelfclosingTagTk("meta", MetaAttribs(e.wrapperType, e.wrappedObjectId), e.tokenData)
  {
    if e.tokenData.tsr.None? then Failure(NullTsr)
    else
      var meta := SelfclosingTagTk("meta", MetaAttribs(e.wrapperType, e.wrappedObjectId),
                                   DataParsoid(e.tokenData.tsr, e.tokenData.src));
      Success([meta] + chunk)
  }

  /** getEncapsulationInfoEndTag: the end meta, typed wrapperType/End, with tsr (null, end of the call's tsr). */
  function GetEncapsulationInfoEndTag(e: Encapsulator): (t: Token)
    ensures t.SelfclosingTagTk? && t.name == "meta"
    ensures t.attribs == MetaAttribs(e.wrapperType + "/End", e.wrappedObjectId)
    ensures t.dataAttribs.tsr.Some? && t.dataAttribs.tsr.value.start.None?
    ensures t.dataAttribs.tsr.value.end == (if e.tokenData.tsr.Some? then e.tokenData.tsr.value.end else None)
    ensures t.dataAttribs.src.None?
  {
    var tsr := e.tokenData.tsr;
    SelfclosingTagTk("meta", MetaAttribs(e.wrapperType + "/End", e.wrappedObjectId),
                     DataParsoid(Some(SourceRange(None, if tsr.Some? then tsr.value.end else None)), None))
  }

  /** In a meta's attributes, typeof gives its type and about gives "#" and the id. */
  lemma MetaAttribsLookup(typeOf: string, id: string)
    ensures Lookup(Some(MetaAttribs(typeOf, id)), "typeof") == Some(StrPart(typeOf))
    ensures Lookup(Some(MetaAttribs(typeOf, id)), "about") == Some(StrPart("#" + id))
  {
    var kvs := MetaAttribs(typeOf, id);
    TrimOfTrimmed("typeof");
    TrimOfTrimmed("about");
    assert Matches(kvs[0], "typeof") && !Matches(kvs[0], "about") && Matches(kvs[1], "about");
    assert FirstMatch(kvs, "typeof", 0) == Some(0);
    assert FirstMatch(kvs, "about", 1) == Some(1);
    assert FirstMatch(kvs, "about", 0) == Some(1);
  }

  /** The start and end metas carry the same about id, "#" followed by the wrapped object id, and the wrapper type and its /End form. */
  lemma MetasShareAbout(e: Encapsulator)
    requires e.tokenData.tsr.Some?
    ensures Lookup(Some(GetEncapsulationInfo(e, []).value[0].attribs), "about") == Some(StrPart("#" + e.wrappedObjectId))
    ensures Lookup(Some(GetEncapsulationInfoEndTag(e).attribs), "about") == Some(StrPart("#" + e.wrappedObjectId))
    ensures Lookup(Some(GetEncapsulationInfo(e, []).value[0].attribs), "typeof") == Some(StrPart(e.wrapperType))
    ensures Lookup(Some(GetEncapsulationInfoEndTag(e).attribs), "typeof") == Some(StrPart(e.wrapperType + "/End"))
  {
    MetaAttribsLookup(e.wrapperType, e.wrappedObjectId);
    MetaAttribsLookup(e.wrapperType + "/End", e.wrappedObjectId);
  }

  predicate SimpleToken(t: Token) {
    t.Str? || t.CommentTk? || t.NlTk?
  }

  /** Every element is a string, a comment or a newline (a lone value counts as a one-element array). */
  predicate SimplePart(p: KVPart) {
    match p
    case StrPart(_) => true
    case TokenPart(t) => SimpleToken(t)
    case TokensPart(ts) => forall j :: 0 <= j < |ts| ==> SimpleToken(ts[j])
    case KVsPart(kvs) => kvs == []
  }

  /** isSimpleParam */
  method IsSimpleParam(p: KVPart) returns (b: bool)
    ensures b <==> SimplePart(p)
  {
    match p {
      case StrPart(_) =>
        return true;
      case TokenPart(t) =>
        return SimpleToken(t);
      case KVsPart(kvs) =>
        return |kvs| == 0;
      case TokensPart(ts) =>
        for j := 0 to |ts|
          invariant forall m :: 0 <= m < j ==> SimpleToken(ts[m])
        {
          if !SimpleToken(ts[j]) {
            return false;
          }
        }
        return true;
    }
  }

  /** PHP truthiness of the parameter tokens (null, "", "0" and empty arrays are false). */
  predicate TruthyPart(p: Option<KVPart>) {
    match p
    case None => false
    case Some(StrPart(s)) => Truthy(s)
    case Some(TokenPart(_)) => true
    case Some(TokensPart(ts)) => ts != []
    case Some(KVsPart(kvs)) => kvs != []
  }

  predicate UrlChar(ch: char) {
    !IsSpace(ch) && ch != '[' && ch != ']' && ch != '{' && ch != '}'
  }

  /** The pattern ^https?://[^[\]{}\s]*$ */
  predicate IsBareUrl(s: string)
    ensures IsBareUrl(s) ==> forall j :: 0 <= j < |s| ==> UrlChar(s[j])
  {
    || (|s| >= 7 && s[..7] == "http://" && forall j :: 7 <= j < |s| ==> UrlChar(s[j]))
    || (|s| >= 8 && s[..8] == "https://" && forall j :: 8 <= j < |s| ==> UrlChar(s[j]))
  }

  /** str_replace( "'", '&#39;', s ) */
  function EscapeApostrophes(s: string): (r: string)
    ensures forall j :: 0 <= j < |r| ==> r[j] != '\''
    ensures (forall j :: 0 <= j < |s| ==> s[j] != '\'') ==> r == s
  {
    if s == [] then []
    else (if s[0] == '\'' then "&#39;" else [s[0]]) + EscapeApostrophes(s[1..])
  }

  /** A single character: an apostrophe becomes &#39;, any other character stays. */
  lemma EscapeApostrophesChar(c: char)
    ensures EscapeApostrophes([c]) == if c == '\'' then "&#39;" else [c]
  {
    assert [c][1..] == [];
  }

  /** The replacement works character by character: escaping distributes over concatenation. */
  lemma {:induction false} EscapeApostrophesConcat(a: string, b: string)
    ensures EscapeApostrophes(a + b) == EscapeApostrophes(a) + EscapeApostrophes(b)
  {
    if a == [] {
      assert a + b == b;
    } else {
      assert (a + b)[0] == a[0] && (a + b)[1..] == a[1..] + b;
      EscapeApostrophesConcat(a[1..], b);
    }
  }

  /** The external link of a bare URL parameter, its href single-quoted. */
  function ExtLinkHtml(wt: string): (html: string)
    ensures |html| == |LinkOpen| + |EscapeApostrophes(wt)| + |wt| + 6
    ensures html[..|LinkOpen|] == LinkOpen
    ensures html[|LinkOpen|..|LinkOpen| + |EscapeApostrophes(wt)|] == EscapeApostrophes(wt)
    ensures forall j :: |LinkOpen| <= j < |LinkOpen| + |EscapeApostrophes(wt)| ==> html[j] != '\''
    ensures html[|LinkOpen| + |EscapeApostrophes(wt)|..] == "'>" + wt + "</a>"
  {
    LinkOpen + EscapeApostrophes(wt) + "'>" + wt + "</a>"
  }

  /** The anchor up to the opening quote of its href. */
  const LinkOpen: string := "<a rel='mw:ExtLink' href='"

  /** A bare URL is a scheme followed by characters the pattern allows. */
  lemma BareUrlSplits(s: string) returns (scheme: string, rest: string)
    requires IsBareUrl(s)
    ensures scheme == "http://" || scheme == "https://"
    ensures s == scheme + rest
    ensures forall j :: 0 <= j < |rest| ==> UrlChar(rest[j])
  {
    scheme := if |s| >= 7 && s[..7] == "http://" then "http://" else "https://";
    rest := s[|scheme|..];
    assert s == s[..|scheme|] + rest;
  }

  /** A scheme followed by characters the pattern allows is a bare URL. */
  lemma BareUrlAccepts(scheme: string, rest: string)
    requires scheme == "http://" || scheme == "https://"
    requires forall j :: 0 <= j < |rest| ==> UrlChar(rest[j])
    ensures IsBareUrl(scheme + rest)
  {
    var s := scheme + rest;
    assert s[..|scheme|] == scheme;
    forall j | |scheme| <= j < |s| ensures UrlChar(s[j]) {
      assert s[j] == rest[j - |scheme|];
    }
  }

  /** The canonical decimal key PHP turns into an integer array index. */
  function IndexOfKey(k: string): (r: Option<nat>)
    ensures r.Some? ==> NatToString(r.value) == k
  {
    if IsDigits(k) && k != [] && NatToString(DecimalValue(k)) == k then Some(DecimalValue(k)) else None
  }

  lemma IndexOfNumber(n: nat)
    ensures IndexOfKey(NatToString(n)) == Some(n)
  {
    DecimalRoundTrip(n);
  }

  /**
   * The tokens a parameter's HTML is decided on: getAttribute(k) for a named
   * parameter, and attribs[k] read with k as an array index for a positional one.
   */
  function ParamTokens(e: Encapsulator, info: ParamInfo): (r: Option<KVPart>)
    ensures info.named ==> (r.Some? <==> exists i :: 0 <= i < |e.attribs| && Matches(e.attribs[i], info.k))
  {
    if info.named then Lookup(Some(e.attribs), info.k)
    else match IndexOfKey(info.k)
      case Some(i) => if i < |e.attribs| then Some(e.attribs[i].v) else None
      case None => None
  }
  /**
   * A positional parameter numbered n is decided on the value of attribs[n],
   * the attribute at that position, whichever argument it is.
   */
  lemma ParamTokensPositional(e: Encapsulator, info: ParamInfo, n: nat)
    requires !info.named && info.k == NatToString(n) && n < |e.attribs|
    ensures ParamTokens(e, info) == Some(e.attribs[n].v)
  {
    IndexOfNumber(n);
  }


  /** The HTML set without a sub-pipeline: the wikitext itself, or an external link; None when a sub-pipeline is needed. */
  function HtmlFor(tokens: Option<KVPart>, wt: string): Option<string> {
    if TruthyPart(tokens) && (tokens.value.StrPart? || SimplePart(tokens.value)) then Some(wt)
    else if IsBareUrl(wt) then Some(ExtLinkHtml(wt))
    else None
  }

  /** A parameter queued for the sub-pipeline, with its info and tokens. */
  datatype Pending = Pending(k: string, info: ParamInfo, tokens: Option<KVPart>)

  /** The parameters, in info order, whose HTML needs a sub-pipeline. */
  function PendingOf(e: Encapsulator, infos: seq<ParamInfo>, params: map<string, Param>): seq<Pending>
    requires forall m :: 0 <= m < |infos| ==> infos[m].k in params
  {
    if infos == [] then []
    else
      var info := infos[|infos| - 1];
      var rest := PendingOf(e, infos[..|infos| - 1], params);
      if HtmlFor(ParamTokens(e, info), params[info.k].wt).None? then rest + [Pending(info.k, info, ParamTokens(e, info))]
      else rest
  }

  /** A plain non-empty string value other than "0" is its own HTML. */
  lemma StringParamIsItsOwnHtml(s: string, wt: string)
    requires Truthy(s)
    ensures HtmlFor(Some(StrPart(s)), wt) == Some(wt)
  {
  }

  /** Tokens that are not all text, comments or newlines need the sub-pipeline unless the wikitext is a bare URL. */
  lemma ComplexParamNeedsPipeline(tokens: seq<Token>, j: nat, wt: string)
    requires j < |tokens| && !SimpleToken(tokens[j]) && !IsBareUrl(wt)
    ensures HtmlFor(Some(TokensPart(tokens)), wt).None?
  {
  }

  datatype Encapsulation = Encapsulation(toks: seq<Token>, argInfo: ArgInfo, pending: seq<Pending>)

  /**
   * The dictionary and the sub-pipeline queue after the HTML loop of
   * encapTokens has visited the given infos in order. Each visit reads the
   * entry of its key as it then stands: the entry gets HtmlFor of its tokens
   * and wikitext as its HTML, or, when there is none, the parameter is queued.
   */
  function HtmlPass(e: Encapsulator, infos: seq<ParamInfo>, params: map<string, Param>): (r: (map<string, Param>, seq<Pending>))
    requires forall m :: 0 <= m < |infos| ==> infos[m].k in params
    ensures r.0.Keys == params.Keys
  {
    if infos == [] then (params, [])
    else
      var info := infos[|infos| - 1];
      var prev := HtmlPass(e, infos[..|infos| - 1], params);
      var param := prev.0[info.k];
      var tokens := ParamTokens(e, info);
      var html := HtmlFor(tokens, param.wt);
      if html.Some? then (prev.0[info.k := param.(html := html)], prev.1)
      else (prev.0, prev.1 + [Pending(info.k, info, tokens)])
  }

  /** The pass changes the HTML of entries and nothing else about them. */
  lemma {:induction false} HtmlPassKeepsText(e: Encapsulator, infos: seq<ParamInfo>, params: map<string, Param>)
    requires forall m :: 0 <= m < |infos| ==> infos[m].k in params
    ensures forall k :: k in params ==> HtmlPass(e, infos, params).0[k] == params[k].(html := HtmlPass(e, infos, params).0[k].html)
    decreases |infos|
  {
    if infos != [] {
      HtmlPassKeepsText(e, infos[..|infos| - 1], params);
    }
  }

  /** An entry whose key no visited info has is left alone. */
  lemma {:induction false} HtmlPassUntouched(e: Encapsulator, infos: seq<ParamInfo>, params: map<string, Param>, k: string)
    requires forall m :: 0 <= m < |infos| ==> infos[m].k in params
    requires k in params && forall m :: 0 <= m < |infos| ==> infos[m].k != k
    ensures HtmlPass(e, infos, params).0[k] == params[k]
    decreases |infos|
  {
    if infos != [] {
      var prefix := infos[..|infos| - 1];
      assert forall m :: 0 <= m < |prefix| ==> prefix[m] == infos[m];
      HtmlPassUntouched(e, prefix, params, k);
    }
  }

  /**
   * With pairwise distinct keys that have no HTML yet, each visited entry
   * ends up with HtmlFor of its own tokens and of its original wikitext as its
   * HTML (None when it is queued).
   */
  lemma {:induction false} HtmlPassSetsHtml(e: Encapsulator, infos: seq<ParamInfo>, params: map<string, Param>)
    requires forall m :: 0 <= m < |infos| ==> infos[m].k in params && params[infos[m].k].html.None?
    requires forall a, b :: 0 <= a < b < |infos| ==> infos[a].k != infos[b].k
    ensures forall info :: info in infos ==>
      HtmlPass(e, infos, params).0[info.k].html == HtmlFor(ParamTokens(e, info), params[info.k].wt)
    decreases |infos|
  {
    if infos != [] {
      var n := |infos| - 1;
      var prefix := infos[..n];
      assert forall m :: 0 <= m < n ==> prefix[m] == infos[m];
      HtmlPassSetsHtml(e, prefix, params);
      HtmlPassLast(e, infos, params);
      forall info | info in infos
        ensures HtmlPass(e, infos, params).0[info.k].html == HtmlFor(ParamTokens(e, info), params[info.k].wt)
      {
        var m :| 0 <= m < |infos| && infos[m] == info;
        if m < n {
          assert prefix[m] == info && info.k != infos[n].k;
          HtmlPassEarlier(e, infos, params, info.k);
        }
      }
    }
  }

  /** The last visited entry gets HtmlFor of its tokens and original wikitext when no earlier info has its key. */
  lemma HtmlPassLast(e: Encapsulator, infos: seq<ParamInfo>, params: map<string, Param>)
    requires infos != [] && forall m :: 0 <= m < |infos| ==> infos[m].k in params
    requires forall m :: 0 <= m < |infos| - 1 ==> infos[m].k != infos[|infos| - 1].k
    requires params[infos[|infos| - 1].k].html.None?
    ensures HtmlPass(e, infos, params).0[infos[|infos| - 1].k].html ==
      HtmlFor(ParamTokens(e, infos[|infos| - 1]), params[infos[|infos| - 1].k].wt)
  {
    var prefix := infos[..|infos| - 1];
    assert forall m :: 0 <= m < |prefix| ==> prefix[m] == infos[m];
    HtmlPassUntouched(e, prefix, params, infos[|infos| - 1].k);
  }

  /** Visiting the last info leaves every other key's entry as the earlier visits made it. */
  lemma HtmlPassEarlier(e: Encapsulator, infos: seq<ParamInfo>, params: map<string, Param>, k: string)
    requires infos != [] && forall m :: 0 <= m < |infos| ==> infos[m].k in params
    requires k in params && k != infos[|infos| - 1].k
    ensures HtmlPass(e, infos, params).0[k] == HtmlPass(e, infos[..|infos| - 1], params).0[k]
  {
  }

  /** With pairwise distinct keys, the pass queues exactly the parameters PendingOf names. */
  lemma {:induction false} HtmlPassQueues(e: Encapsulator, infos: seq<ParamInfo>, params: map<string, Param>)
    requires forall m :: 0 <= m < |infos| ==> infos[m].k in params
    requires forall a, b :: 0 <= a < b < |infos| ==> infos[a].k != infos[b].k
    ensures HtmlPass(e, infos, params).1 == PendingOf(e, infos, params)
    decreases |infos|
  {
    if infos != [] {
      var n := |infos| - 1;
      var prefix := infos[..n];
      assert forall m :: 0 <= m < n ==> prefix[m] == infos[m];
      HtmlPassQueues(e, prefix, params);
      HtmlPassUntouched(e, prefix, params, infos[n].k);
    }
  }

  /**
   * The HTML loop of encapTokens: each parameter, in info order, gets its own
   * wikitext as HTML when its tokens are simple, an external link when it is a
   * bare URL, and is otherwise queued for the sub-pipeline.
   */
  method AddParamHtml(e: Encapsulator, infos: seq<ParamInfo>, params: map<string, Param>)
    returns (dict: map<string, Param>, pending: seq<Pending>)
    requires forall m :: 0 <= m < |infos| ==> infos[m].k in params
    ensures (dict, pending) == HtmlPass(e, infos, params)
  {
    dict := params;
    pending := [];
    for j := 0 to |infos|
      invariant (dict, pending) == HtmlPass(e, infos[..j], params)
    {
      assert infos[..j + 1][..j] == infos[..j];
      var info := infos[j];
      var param := dict[info.k];
      var paramTokens := ParamTokens(e, info);
      var html := ParamHtml(paramTokens, param.wt);
      if html.Some? {
        dict := dict[info.k := param.(html := html)];
      } else {
        pending := pending + [Pending(info.k, info, paramTokens)];
      }
    }
    assert infos[..|infos|] == infos;
  }

  /**
   * The HTML one parameter gets without a sub-pipeline: its wikitext when its
   * tokens are truthy and simple, else an external link when the wikitext is a
   * bare URL; None leaves it to the sub-pipeline.
   */
  method ParamHtml(tokens: Option<KVPart>, wt: string) returns (html: Option<string>)
    ensures html == HtmlFor(tokens, wt)
  {
    var simple := false;
    if TruthyPart(tokens) {
      if tokens.value.StrPart? {
        simple := true;
      } else {
        simple := IsSimpleParam(tokens.value);
      }
    }
    if simple {
      html := Some(wt);
    } else if IsBareUrl(wt) {
      html := Some(ExtLinkHtml(wt));
    } else {
      html := None;
    }
  }

  /**
   * encapTokens: the start meta, the tokens and the end meta; the argument
   * info, with the HTML of each parameter that needs no sub-pipeline when
   * addHtml holds; and the parameters left for the sub-pipeline.
   */
  method EncapTokens(e: Encapsulator, tokens: seq<Token>, tts: TokensToString, addHtml: bool)
    returns (r: Result<Encapsulation, Error>)
    ensures e.tokenData.tsr.None? ==> r == Failure(NullTsr)
    ensures e.tokenData.tsr.Some? ==> (r.Failure? <==> !AllSourced(Args(e), e.frameSrc, |Args(e)|))
    ensures r.Failure? && r.error.NonStringSource? ==>
      (&& 1 <= r.error.index <= |Args(e)|
       && AllSourced(Args(e), e.frameSrc, r.error.index - 1)
       && ArgSource(e.attribs[r.error.index], e.frameSrc).None?)
    ensures r.Success? ==> AllSourced(Args(e), e.frameSrc, |Args(e)|) && DescribesArgs(Registrations(Analysis(e, tts)), r.value.argInfo)
    ensures r.Success? ==> r.value.argInfo.target == TargetOf(e)
    ensures r.Success? ==>
      (&& e.tokenData.tsr.Some?
       && r.value.toks == GetEncapsulationInfo(e, tokens).value + [GetEncapsulationInfoEndTag(e)]
       && r.value.toks[1..|r.value.toks| - 1] == tokens)
    ensures r.Success? ==>
      forall m :: 0 <= m < |r.value.argInfo.paramInfos| ==>
        (&& r.value.argInfo.paramInfos[m].k in r.value.argInfo.params
         && r.value.argInfo.params[r.value.argInfo.paramInfos[m].k].html ==
              (if addHtml then HtmlFor(ParamTokens(e, r.value.argInfo.paramInfos[m]), r.value.argInfo.params[r.value.argInfo.paramInfos[m].k].wt) else None))
    ensures r.Success? ==> r.value.pending == (if addHtml then PendingOf(e, r.value.argInfo.paramInfos, r.value.argInfo.params) else [])
  {
    var start := GetEncapsulationInfo(e, tokens);
    if start.Failure? {
      return Failure(NullTsr);
    }
    var toks := start.value + [GetEncapsulationInfoEndTag(e)];
    var res := GetArgInfo(e, tts);
    if res.Failure? {
      return Failure(res.error);
    }
    var argInfo := res.value;
    ghost var xs := Analysis(e, tts);
    ghost var rs := Registrations(xs);
    ParamInfosDistinct(rs);
    ParamInfosCoverDictionary(rs);
    RegistrationsNoHtml(xs);
    DictOfNoHtml(rs);
    var pending: seq<Pending> := [];
    if addHtml {
      var dict;
      dict, pending := AddParamHtml(e, argInfo.paramInfos, argInfo.params);
      HtmlPassKeepsText(e, argInfo.paramInfos, argInfo.params);
      HtmlPassSetsHtml(e, argInfo.paramInfos, argInfo.params);
      HtmlPassQueues(e, argInfo.paramInfos, argInfo.params);
      PendingOfFrame(e, argInfo.paramInfos, argInfo.params, dict);
      argInfo := argInfo.(params := dict);
    }
    r := Success(Encapsulation(toks, argInfo, pending));
  }

  /** PendingOf reads only the wikitext of the entries it is given. */
  lemma {:induction false} PendingOfFrame(e: Encapsulator, infos: seq<ParamInfo>, p1: map<string, Param>, p2: map<string, Param>)
    requires forall m :: 0 <= m < |infos| ==> infos[m].k in p1 && infos[m].k in p2 && p1[infos[m].k].wt == p2[infos[m].k].wt
    ensures PendingOf(e, infos, p1) == PendingOf(e, infos, p2)
  {
    if infos != [] {
      PendingOfFrame(e, infos[..|infos| - 1], p1, p2);
    }
  }
}
