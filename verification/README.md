# Parsoid core pieces, modelled in Dafny

This project models five small, sequential pieces of Parsoid, the
wikitext/HTML converter, and proves what they promise:

- **The template encapsulator** (`template_encapsulator.dfy`, with
  `text.dfy` for PHP's `trim()`, the whitespace captures of
  `^(\s*)(?:.*\S)?(\s*)$` and `(string)$int`). It builds the argument info of
  a template call: the target record, the ordered parameter infos and the
  parameter dictionary. It wraps the expanded tokens between a start and an
  end meta that share one `about` id. When HTML template parameters are
  enabled, it gives each parameter its HTML, or queues the parameter for
  the sub-pipeline.
  - `getArgInfo` is a method with a loop, proved against a declarative
    description of the arguments. That description covers each argument's
    analysis (`Analyse`), the key it resolves to (`KeyAt`) and what it
    registers (`RegistrationOf`).
  - The dictionary (`DictOf`) and the infos (`InfosOf`) are functions of
    the registrations. Their lemmas say which registration of a key
    introduces its info (the first) and which one writes its entry (the
    last).
- **KV** (`tokens.dfy`): first-match lookup in a key/value list, the offset
  accessors, and the shape of the JSON form.
- **DataBag** (`data_bag.dfy`): a class holding the per-document store of
  data objects under ids from a counter, and the page bundle.
- **TableHandler** (`table_handler.dfy`): the newline constraints around a
  table, and the serializer-state bookkeeping of `handle()`. DOM queries are
  inputs; emissions are recorded in a trace.
- **AttributeExpander** (`attribute_expander.dfy`): the JavaScript
  `onToken` and `_returnAttributes`. The token objects are a class, so that
  copying, in-place updates and the recorded callback calls are explicit.

Two behaviours of the argument analysis are worth stating plainly:

- Every occurrence of a key overwrites its dictionary entry
  (TemplateEncapsulator.php:240), so the last occurrence wins. Only the
  parameter info, added when the key is not yet set (TemplateEncapsulator.php:199),
  is first-wins.
- Positional numbering counts positional arguments only. A positional
  argument gets the next number even when a named argument already used
  that number as its name.

When the HTML of a positional parameter is decided, the tokens looked at are
those of `attribs[(int)k]`, the attribute at the position named by the key.
When a named argument precedes the positional ones, that is another
argument's value. `ParamTokens` reads the tokens the same way.

## Model

| member | source | states |
|---|---|---|
| Tokens.FirstMatch | src/Tokens/KV.php:67-75 | the index found is the first at or after `from` whose key is a string trimming to the searched key; None exactly when no KV from there matches |
| Tokens.LookupKV | src/Tokens/KV.php:62-76 | null for a null list; otherwise the first KV whose key is a string trimming to the key, with no earlier match; null exactly when nothing matches (non-string keys never match) |
| Tokens.Lookup | src/Tokens/KV.php:86-92 | the value of the first matching KV, null when there is none |
| Tokens.LookupFirstWins | src/Tokens/KV.php:52-57 | once some KV matches, appending more KVs (even with the same key) never changes what lookupKV returns |
| Tokens.KeyOffset | src/Tokens/KV.php:99-102 | null exactly when there are no source offsets, else their key part |
| Tokens.ValueOffset | src/Tokens/KV.php:109-112 | null exactly when there are no source offsets, else their value part |
| Tokens.JsonSerialize | src/Tokens/KV.php:117-129 | always has k and v; srcOffsets, ksrc and vsrc appear exactly when set, with their values; no other members |
| Text.TrimMeaning | src/Wt2Html/TT/TemplateEncapsulator.php:168 | trim gives the empty string exactly for an all-whitespace string, and otherwise a string that starts and ends with a non-space |
| Text.SpaceAroundMeaning | src/Wt2Html/TT/TemplateEncapsulator.php:205-208 | both captures are whitespace, and the string is the first capture, its trim and the second capture, in that order |
| Text.TrimIdempotent | src/Wt2Html/TT/TemplateEncapsulator.php:168-177 | trimming a trimmed key changes nothing |
| Text.NatToString | src/Wt2Html/TT/TemplateEncapsulator.php:191 | the positional key is a non-empty digit string without leading zero |
| Text.DecimalRoundTrip | src/Wt2Html/TT/TemplateEncapsulator.php:92 | reading a positional key back as an array index gives the number it was made from |
| Text.NatToStringInjective | src/Wt2Html/TT/TemplateEncapsulator.php:191 | two numbers give the same key exactly when they are equal |
| TemplateEncapsulator.Substr | src/Wt2Html/TT/TemplateEncapsulator.php:161-162 | a span inside the source text gives exactly that slice |
| TemplateEncapsulator.Args | src/Wt2Html/TT/TemplateEncapsulator.php:155-156 | the arguments are the attributes from index 1 on; params[0], the target, is not one |
| TemplateEncapsulator.TargetNotAnArgument | src/Wt2Html/TT/TemplateEncapsulator.php:155-156 | two calls that differ only in params[0] have the same analysis, so the target never contributes an info or an entry |
| TemplateEncapsulator.AnalysePrefixAt | src/Wt2Html/TT/TemplateEncapsulator.php:155-197 | each argument is analysed on its own: entry j of the analyses is the analysis of argument j alone |
| TemplateEncapsulator.AnalyseMeaning | src/Wt2Html/TT/TemplateEncapsulator.php:168-235 | the key wikitext is the trimmed key source; an argument is positional exactly when its name is empty, it has offsets and its value starts where its key ends; a named value is trimmed and a positional one kept as is; the name is the trimmed string form of a key given as tokens, or the trimmed key source otherwise; spacing is recorded exactly when the key source, or the source of a named value, has surrounding whitespace; the recorded captures are whitespace around the trimmed text; an all-whitespace key is all leading capture (kSrc, ""), a blank named value all trailing capture ("", vSrc) |
| TemplateEncapsulator.SpcOfMeaning | src/Wt2Html/TT/TemplateEncapsulator.php:206-235 | some capture is truthy exactly when the key source or a named value's source differs from its trim; the key source is the key captures around its trim |
| TemplateEncapsulator.SpcOfValue | src/Wt2Html/TT/TemplateEncapsulator.php:211-224 | a positional argument records empty value spacing; a named one records the whitespace before and after its trimmed value, and a blank value is recorded as ("", vSrc) |
| TemplateEncapsulator.Registrations | src/Wt2Html/TT/TemplateEncapsulator.php:156-246 | one registration per argument, in argument order |
| TemplateEncapsulator.RegistrationsAt | src/Wt2Html/TT/TemplateEncapsulator.php:183-245 | argument j registers under its key: the next positional number if it is positional, else its name |
| TemplateEncapsulator.RegistrationsNoHtml | src/Wt2Html/TT/TemplateEncapsulator.php:240 | no entry written by getArgInfo has html |
| TemplateEncapsulator.PositionalCountGrows | src/Wt2Html/TT/TemplateEncapsulator.php:186-192 | each positional argument moves the counter up by one, so a later argument sees a larger count |
| TemplateEncapsulator.PositionalKeysDistinct | src/Wt2Html/TT/TemplateEncapsulator.php:186-192 | two positional arguments never get the same key |
| TemplateEncapsulator.PositionalKeyIsRank | src/Wt2Html/TT/TemplateEncapsulator.php:186-192 | a positional argument's key is the decimal form of its 1-based rank among the positional arguments |
| TemplateEncapsulator.FirstIndicesSound | src/Wt2Html/TT/TemplateEncapsulator.php:199-238 | the arguments that introduce a key are listed in increasing order, and each is the first with its key |
| TemplateEncapsulator.FirstIndicesComplete | src/Wt2Html/TT/TemplateEncapsulator.php:199-238 | every key of the arguments is introduced by one of the listed arguments |
| TemplateEncapsulator.DictOfKeys | src/Wt2Html/TT/TemplateEncapsulator.php:240 | the dictionary's keys are exactly the registered keys |
| TemplateEncapsulator.DictOfLastWins | src/Wt2Html/TT/TemplateEncapsulator.php:240-245 | the entry of a key is the one its last registration wrote |
| TemplateEncapsulator.DictOfNoHtml | src/Wt2Html/TT/TemplateEncapsulator.php:240 | when no registration carries html, no dictionary entry does |
| TemplateEncapsulator.InfosOfFirstOccurrences | src/Wt2Html/TT/TemplateEncapsulator.php:199-238 | the infos are those of the first registration of each key, in order |
| TemplateEncapsulator.InfoKeysAreFirstKeys | src/Wt2Html/TT/TemplateEncapsulator.php:199-203 | there is one info per introducing argument, carrying its key |
| TemplateEncapsulator.ParamInfosDistinct | src/Wt2Html/TT/TemplateEncapsulator.php:199-238 | no two infos share a key |
| TemplateEncapsulator.ParamInfosCoverDictionary | src/Wt2Html/TT/TemplateEncapsulator.php:199-240 | a key is in the dictionary exactly when some info carries it |
| TemplateEncapsulator.LastOccurrenceWins | src/Wt2Html/TT/TemplateEncapsulator.php:240 | every registered key is in the dictionary, holding the entry of a later registration with that key that is the last one |
| TemplateEncapsulator.ArgKeyRegistered | src/Wt2Html/TT/TemplateEncapsulator.php:240 | every argument's key is a key of the dictionary |
| TemplateEncapsulator.ArgEntry | src/Wt2Html/TT/TemplateEncapsulator.php:240-245 | the last argument with a key decides its entry: its value, plus its trimmed key source only when named and different from the key |
| TemplateEncapsulator.FirstInfo | src/Wt2Html/TT/TemplateEncapsulator.php:199-238 | the info carrying a key is the one the first registration under that key made |
| TemplateEncapsulator.ArgParamInfo | src/Wt2Html/TT/TemplateEncapsulator.php:199-237 | the first argument with a key contributes an info: that key, its offsets, named exactly when not positional, its spacing |
| TemplateEncapsulator.TargetOf | src/Wt2Html/TT/TemplateEncapsulator.php:256-268 | target wt is present exactly when params[0] has offsets (then it is the key slice); at most one of function and href, function preferred; href only from the resolved target |
| TemplateEncapsulator.GetArgInfo | src/Wt2Html/TT/TemplateEncapsulator.php:142-271 | fails exactly when some argument's source is not a string, naming the first such argument; otherwise params and infos are those of the registrations of the analysed arguments, and the target is TargetOf |
| TemplateEncapsulator.RegisterArg | src/Wt2Html/TT/TemplateEncapsulator.php:186-245 | one loop step: the counter, dictionary and infos become those of the arguments with this one appended |
| TemplateEncapsulator.Register | src/Wt2Html/TT/TemplateEncapsulator.php:199-245 | a new key gets an info, and the key's entry is overwritten |
| TemplateEncapsulator.GetEncapsulationInfo | src/Wt2Html/TT/TemplateEncapsulator.php:277-295 | fails exactly when the call has no tsr (cloning null); otherwise a meta with typeof and about, the call's tsr and src, followed by the chunk |
| TemplateEncapsulator.GetEncapsulationInfoEndTag | src/Wt2Html/TT/TemplateEncapsulator.php:300-311 | a meta typed wrapperType/End with the same about, and tsr (null, end of the call's tsr) |
| TemplateEncapsulator.MetaAttribsLookup | src/Wt2Html/TT/TemplateEncapsulator.php:284-287 | looking up typeof and about in a meta's attributes finds the type and "#" followed by the id |
| TemplateEncapsulator.MetasShareAbout | src/Wt2Html/TT/TemplateEncapsulator.php:284-308 | the start and end metas carry the same about and the types T and T/End |
| TemplateEncapsulator.IsSimpleParam | src/Wt2Html/TT/TemplateEncapsulator.php:319-329 | true exactly when every element (a lone value counts as one) is a string, a comment or a newline |
| TemplateEncapsulator.ParamTokens | src/Wt2Html/TT/TemplateEncapsulator.php:89-93 | a named parameter's tokens are found exactly when some attribute's key matches its name |
| TemplateEncapsulator.ParamTokensPositional | src/Wt2Html/TT/TemplateEncapsulator.php:89-93 | a positional parameter numbered n, with n below the attribute count, reads the value of attribs[n] |
| TemplateEncapsulator.IsBareUrl | src/Wt2Html/TT/TemplateEncapsulator.php:102-102 | a bare URL holds no whitespace, brackets or braces anywhere |
| TemplateEncapsulator.BareUrlSplits | src/Wt2Html/TT/TemplateEncapsulator.php:102-102 | a bare URL is http:// or https:// followed by characters other than whitespace, brackets and braces |
| TemplateEncapsulator.BareUrlAccepts | src/Wt2Html/TT/TemplateEncapsulator.php:102-102 | http:// or https:// followed by characters other than whitespace, brackets and braces is a bare URL |
| TemplateEncapsulator.ExtLinkHtml | src/Wt2Html/TT/TemplateEncapsulator.php:105-106 | the link opens an mw:ExtLink anchor whose single-quoted href is the wikitext with each apostrophe escaped (so it holds none), and ends with the wikitext as link text and the closing tag |
| TemplateEncapsulator.EscapeApostrophes | src/Wt2Html/TT/TemplateEncapsulator.php:105-106 | the result holds no apostrophe, and a string without one is unchanged |
| TemplateEncapsulator.EscapeApostrophesChar | src/Wt2Html/TT/TemplateEncapsulator.php:105-106 | an apostrophe becomes &#39; and any other character is kept |
| TemplateEncapsulator.EscapeApostrophesConcat | src/Wt2Html/TT/TemplateEncapsulator.php:105-106 | the replacement works character by character, keeping order: escaping a concatenation concatenates the escapes |
| TemplateEncapsulator.IndexOfKey | src/Wt2Html/TT/TemplateEncapsulator.php:92 | a key read as an array index is the decimal form of that index |
| TemplateEncapsulator.IndexOfNumber | src/Wt2Html/TT/TemplateEncapsulator.php:92 | a positional key reads back as its number |
| TemplateEncapsulator.StringParamIsItsOwnHtml | src/Wt2Html/TT/TemplateEncapsulator.php:98-101 | a truthy string parameter gets its wikitext as HTML |
| TemplateEncapsulator.ComplexParamNeedsPipeline | src/Wt2Html/TT/TemplateEncapsulator.php:98-114 | tokens with an element that is not text, a comment or a newline, and wikitext that is not a bare URL, get no HTML here |
| TemplateEncapsulator.HtmlPass | src/Wt2Html/TT/TemplateEncapsulator.php:86-115 | the HTML loop keeps the dictionary's keys |
| TemplateEncapsulator.HtmlPassKeepsText | src/Wt2Html/TT/TemplateEncapsulator.php:101-106 | the HTML loop changes only the html of entries |
| TemplateEncapsulator.HtmlPassSetsHtml | src/Wt2Html/TT/TemplateEncapsulator.php:86-106 | with distinct keys and no html yet, each parameter ends up with the HTML its tokens and wikitext give, or none |
| TemplateEncapsulator.HtmlPassQueues | src/Wt2Html/TT/TemplateEncapsulator.php:107-114 | with distinct keys, the queued parameters are exactly those without HTML, in info order |
| TemplateEncapsulator.AddParamHtml | src/Wt2Html/TT/TemplateEncapsulator.php:85-115 | the loop computes the HTML pass over the infos |
| TemplateEncapsulator.ParamHtml | src/Wt2Html/TT/TemplateEncapsulator.php:98-114 | a parameter's HTML: its wikitext when its tokens are truthy and simple, else an external link for a bare URL, else none |
| TemplateEncapsulator.EncapTokens | src/Wt2Html/TT/TemplateEncapsulator.php:74-134 | start meta, tokens, end meta; the argument info describes the analysed arguments; with HTML parameters on, every info's entry has the HTML its tokens give, and the queue is exactly the parameters without one; with them off, no html and an empty queue; fails as getEncapsulationInfo and getArgInfo do |
| DataBag.InitialBundle | src/NodeData/DataBag.php:34-39 | the initial page bundle holds the document, data-parsoid with counter -1 and no ids, and data-mw with no ids |
| DataBag.DataBag.constructor | src/NodeData/DataBag.php:16-39 | a fresh bag has no data, counter 0, the initial page bundle and no meta depths |
| DataBag.DataBag.GetPageBundle | src/NodeData/DataBag.php:45-47 | returns the current page bundle |
| DataBag.DataBag.SetPageBundle | src/NodeData/DataBag.php:52-54 | replaces the page bundle and changes nothing else |
| DataBag.DataBag.GetObject | src/NodeData/DataBag.php:63-65 | the data stashed under the id; null exactly for an id never handed out |
| DataBag.DataBag.StashObject | src/NodeData/DataBag.php:72-76 | returns the counter and advances it by one; the id was unused; the data is stored under it; other ids, the page bundle and the meta depths are unchanged; the ids in use stay exactly 0 to the counter |
| TableHandler.Before | src/Html2Wt/DOMHandlers/TableHandler.php:58-68 | {0,2} exactly when the other node is the table's dd parent or an annotation meta was removed, else {1,2} |
| TableHandler.IsSkippedEndMetaTag | src/Html2Wt/DOMHandlers/TableHandler.php:97-104 | only an element that is an annotation end marker meta and still needs writing |
| TableHandler.After | src/Html2Wt/DOMHandlers/TableHandler.php:71-80 | {1,2} exactly when either node is new, the other is not at the top and is not a skipped end meta, else {0,2} |
| TableHandler.FirstChild | src/Html2Wt/DOMHandlers/TableHandler.php:83-85 | min 1, max from maxNLsInTable |
| TableHandler.LastChild | src/Html2Wt/DOMHandlers/TableHandler.php:88-90 | the same constraint as firstChild: min 1, max from maxNLsInTable |
| TableHandler.SerializerState.EmitChunk | src/Html2Wt/DOMHandlers/TableHandler.php:31-50 | emits the chunk with the separator constraints then pending, and clears them; nesting and the single-line stack are kept |
| TableHandler.SerializerState.DisableSingleLine | src/Html2Wt/DOMHandlers/TableHandler.php:28-30 | pushes one disabled single-line level |
| TableHandler.SerializerState.PopSingleLine | src/Html2Wt/DOMHandlers/TableHandler.php:51-53 | pops the innermost single-line level |
| TableHandler.SerializerState.SerializeChildren | src/Html2Wt/DOMHandlers/TableHandler.php:38 | records the children with the nesting and single-line state they see; leaves the constraints the children set |
| TableHandler.Handle | src/Html2Wt/DOMHandlers/TableHandler.php:21-55 | emits the start tag ("{\|" by default) after the separator pending on entry, the children one level deeper unless literal HTML (inside a disabled single-line level when indented), then the end tag ("\|}" by default) after the constraints the children left, or {1,2} when they left none; no separator is left pending; nesting and the single-line stack end as they began; returns the next sibling |
| AttributeExpander.JsToken.constructor | modules/parser/ext.core.AttributeExpander.js:39 | a token object holding the given constructor, name, attributes and rank |
| AttributeExpander.ExpandData.constructor | modules/parser/ext.core.AttributeExpander.js:41-44 | the expandData record: the copy, not async, no callback calls |
| AttributeExpander.ReturnAttributes | modules/parser/ext.core.AttributeExpander.js:75-84 | the copy takes the given attributes; only when async is it ranked 1.11 and passed to the callback exactly once, as [copy] with false |
| AttributeExpander.OnToken | modules/parser/ext.core.AttributeExpander.js:24-69 | a tag with a non-empty attribute array is copied and the caller's token is untouched; synchronous expansion returns the copy with the expanded attributes and no callback call; asynchronous expansion returns {async: true} and marks expandData async; any other token is returned ranked 1.11, on a fresh String object when it is a string without a rank, else in place |

## Left out

- The sub-pipeline of `encapTokens` (`getParamHTML`) is not part of this model. It parses, walks a DOM and serializes; the model stops at the list of parameters queued for it.
- `env->log`, the debug logging and `PHPUtils::jsonEncode` of the argument info are left out. The model returns the argument info as a datatype instead of the JSON text stored on the start meta.
- `TokenUtils::tokensToString` is not part of this model. It is an input function (`TokensToString`) that returns a string, or None for the array case.
- PCRE's `\s` is taken to be PHP's `trim()` set: space, tab, newline, carriage return, NUL and vertical tab. Two characters differ. Form feed is in `\s` but not trimmed: in PHP the key source `"\fa"` records spacing, and a URL holding a form feed is not bare, while the model says otherwise. NUL is trimmed but not in `\s`: the reverse holds for it.
- `SourceRange::substr` is not part of this model. `Substr` clamps the span to the source text.
- PHP's `TypeError` when `trim()` is given a non-string is modelled as `Failure(NonStringSource(i))`. The `Error` from cloning a null tsr is modelled as `Failure(NullTsr)`.
- `isNewElt`, `atTheTop`, `wasAnnotationMetaRemoved`, `isAnnotationEndMarkerMeta`, `isLiteralHTMLNode`, `previousNonSepSibling`, `maxNLsInTable` and `needToWriteEndMeta` are DOM queries. They are boolean or integer inputs. The `DOMCompat::nodeName` values are string inputs: that of the other node (`otherName`, read by `Before`) and that of the table's parent (`parentName`, read by `Handle`).
- `Token::getAttribute` is not part of this model. `ParamTokens` takes it to be `KV::lookup` over all of the token's attributes, the target `attribs[0]` included.
- `serializeTableTag` is not part of this model. Its output is recorded as the `TableTag` emission of the wikitext it is given.
- `serializeChildren` is an input: the constraints it leaves behind. The model assumes the children leave the nesting depth and the single-line stack as they found them.
- The single-line context class is not part of this model. `disable()` is modelled as pushing a disabled level and `pop()` as removing the innermost one.
- `SerializerState::emitChunk` is not part of this model. It is taken to emit the pending separator before the chunk and then clear it. The separator's newline text is not computed; each chunk records the constraints it was emitted under.
- The `constraintInfo` member of a separator constraint is not modelled.
- `AttributeTransformManager` is not part of this model. Its `process()` is an input that either completes synchronously, calling `_returnAttributes` with the expanded attributes first, or completes later. Scheduling the later callback is left to the caller, who calls `ReturnAttributes`.
- AttributeExpander.OnToken: the copy keeps the token's constructor. How `$.extend` treats prototype properties is not modelled. Attribute arrays are values, so the `slice()` copy is implicit.
- The `manager.env.dp` debug output is left out.
- `nodeId` is an unbounded integer. PHP's integer overflow after 2^63 ids is not modelled.
- `NodeData` contents are opaque: the bag's data type is a type parameter. The `DomPageBundle`'s document is a handle.
- DataBag.DataBag.GetPageBundle: the bundle is a value, so writes through the returned object, which PHP shares with the bag, are not modelled.
