/**
  The rewriting of the TypeScript compiler's source text that `runTsc` performs
  before the compiler module is loaded (`transformTscContent` and its helper
  `replace`), the normalisation of `runTsc`'s options, and the meaning of the
  `changeExtension` routine the rewriting inserts.

  A step of the rewriting finds the first match of a pattern and replaces it by an
  edit of the matched text; `Plan` lists the steps the options call for, in order,
  and `RunSteps` performs them, stopping at the first step that leaves the text
  unchanged, where `replace` throws.
*/
module TscPatch {
  import opened Wrappers
  import opened TextPattern
  import JsonString

  // ---------------------------------------------------------------------------
  // Options

  /** The `options` argument of `runTsc`: a plain array, or an object with two lists. */
  datatype RunTscOptions =
    | ExtensionList(extensions: seq<string>)
    | ExtensionOptions(extraSupportedExtensions: seq<string>, extraExtensionsToRemove: seq<string>)

  datatype Extensions = Extensions(extraSupported: seq<string>, extraToRemove: seq<string>)

  /** How `runTsc` turns its options into the two lists it hands to the rewriting. */
  function NormalizeOptions(options: RunTscOptions): (r: Extensions)
    ensures options.ExtensionList? ==> r.extraSupported == options.extensions && r.extraToRemove == []
    ensures options.ExtensionOptions? ==>
      r.extraSupported == options.extraSupportedExtensions && r.extraToRemove == options.extraExtensionsToRemove
  {
    match options
    case ExtensionList(exts) => Extensions(exts, [])
    case ExtensionOptions(supported, toRemove) => Extensions(supported, toRemove)
  }

  /**
    The extensions whose output keeps the extension (`basename.xxx.d.ts`): the
    supported ones that are not also to be removed, in their original order.
  */
  function NeededPatchExtensions(supported: seq<string>, toRemove: seq<string>): (r: seq<string>)
    ensures |r| <= |supported|
  {
    if supported == [] then []
    else (if supported[0] in toRemove then [] else [supported[0]]) + NeededPatchExtensions(supported[1..], toRemove)
  }

  /** An extension needs the patch exactly when it is supported and not to be removed. */
  lemma {:induction false} NeededPatchExtensionsMembers(supported: seq<string>, toRemove: seq<string>)
    ensures forall e :: e in NeededPatchExtensions(supported, toRemove) <==> e in supported && e !in toRemove
  {
    if supported != [] {
      NeededPatchExtensionsMembers(supported[1..], toRemove);
      assert forall e :: e in supported <==> e == supported[0] || e in supported[1..];
    }
  }

  /** Filtering distributes over concatenation: the relative order of the kept extensions is the original one. */
  lemma {:induction false} NeededPatchExtensionsAppend(a: seq<string>, b: seq<string>, toRemove: seq<string>)
    ensures NeededPatchExtensions(a + b, toRemove) == NeededPatchExtensions(a, toRemove) + NeededPatchExtensions(b, toRemove)
  {
    if a != [] {
      var head := if a[0] in toRemove then [] else [a[0]];
      assert (a + b)[0] == a[0];
      assert (a + b)[1..] == a[1..] + b;
      NeededPatchExtensionsAppend(a[1..], b, toRemove);
      calc {
        NeededPatchExtensions(a + b, toRemove);
        head + NeededPatchExtensions(a[1..] + b, toRemove);
        head + (NeededPatchExtensions(a[1..], toRemove) + NeededPatchExtensions(b, toRemove));
        (head + NeededPatchExtensions(a[1..], toRemove)) + NeededPatchExtensions(b, toRemove);
      }
    } else {
      assert a + b == b;
    }
  }

  /** With nothing to remove, every supported extension needs the `changeExtension` patch. */
  lemma {:induction false} NothingRemovedKeepsAll(supported: seq<string>)
    ensures NeededPatchExtensions(supported, []) == supported
  {
    if supported != [] {
      NothingRemovedKeepsAll(supported[1..]);
    }
  }

  /**
    The array form of the options: the list is the supported extensions, nothing
    is removed, and so every listed extension gets the `changeExtension` patch.
  */
  lemma ListOptionsPatchEveryExtension(exts: seq<string>)
    ensures NormalizeOptions(ExtensionList(exts)) == Extensions(exts, [])
    ensures NeededPatchExtensions(exts, []) == exts
  {
    NothingRemovedKeepsAll(exts);
  }

  // ---------------------------------------------------------------------------
  // Rendering an extension list into the generated code

  /** `"${ext}"`. */
  function QuoteExtension(ext: string): string {
    "\"" + ext + "\""
  }

  /** `exts.map(ext => `"${ext}"`).join(', ')`. */
  function RenderExtensions(exts: seq<string>): (r: string)
    ensures r == [] <==> exts == []
  {
    if exts == [] then ""
    else if |exts| == 1 then QuoteExtension(exts[0])
    else QuoteExtension(exts[0]) + ", " + RenderExtensions(exts[1..])
  }

  /** The first double quote in `t` at or after offset `i`. */
  function NextQuote(t: string, i: nat): (r: Option<nat>)
    ensures r.Some? ==> i <= r.value < |t|
    decreases |t| - i
  {
    if i >= |t| then None
    else if t[i] == '\"' then Some(i)
    else NextQuote(t, i + 1)
  }

  /**
    An extension that stands for itself inside a JavaScript string literal: no
    double quote (which would end the literal), no backslash (which would start
    an escape) and no line feed or carriage return (which a literal cannot hold).
    U+2028 and U+2029 may appear: a string literal holds them as themselves.
  */
  predicate PlainExtension(e: string) {
    forall c :: c in e ==> c != '\"' && c != '\\' && c != '\n' && c != '\r'
  }

  /**
    Reads back a rendered list: quoted items separated by `, `. Only items whose
    literal denotes its own text are read; any other literal gives None.
  */
  function ParseExtensions(t: string): Option<seq<string>> {
    if t == [] then Some([]) else ParseQuotedItems(t)
  }

  function ParseQuotedItems(t: string): Option<seq<string>>
    decreases |t|
  {
    if t == [] || t[0] != '\"' then None
    else
      match NextQuote(t, 1)
      case None => None
      case Some(q) =>
        var item := t[1..q];
        var rest := t[q + 1..];
        if !PlainExtension(item) then None
        else if rest == [] then Some([item])
        else if |rest| >= 2 && rest[..2] == ", " then
          match ParseQuotedItems(rest[2..])
          case Some(items) => Some([item] + items)
          case None => None
        else None
  }

  lemma {:induction false} NextQuoteFinds(t: string, i: nat, q: nat)
    requires i <= q < |t| && t[q] == '\"'
    requires forall k :: i <= k < q ==> t[k] != '\"'
    ensures NextQuote(t, i) == Some(q)
    decreases q - i
  {
    if i < q {
      NextQuoteFinds(t, i + 1, q);
    }
  }

  /** A quoted extension without a double quote ends at the quote right after it. */
  lemma QuotedItemEnds(e: string, tail: string)
    requires PlainExtension(e)
    ensures var t := QuoteExtension(e) + tail;
      t[0] == '\"' && NextQuote(t, 1) == Some(|e| + 1) && t[1..|e| + 1] == e && t[|e| + 2..] == tail
  {
    var t := QuoteExtension(e) + tail;
    forall k | 1 <= k < |e| + 1 ensures t[k] != '\"' {
      assert t[k] == e[k - 1] && e[k - 1] in e;
      assert e[k - 1] != '\"';
    }
    NextQuoteFinds(t, 1, |e| + 1);
    assert t[1..|e| + 1] == e;
    assert t[|e| + 2..] == tail;
  }

  /** After a quoted extension and `, `, reading goes on with the rest of the list. */
  lemma ParseNextItem(e: string, more: string)
    requires PlainExtension(e)
    ensures ParseQuotedItems(QuoteExtension(e) + (", " + more)) ==
      match ParseQuotedItems(more)
      case Some(items) => Some([e] + items)
      case None => None
  {
    var tail := ", " + more;
    QuotedItemEnds(e, tail);
    assert tail[..2] == ", " && tail[2..] == more;
  }

  /**
    The rendered list reads back as exactly the extensions, in order, when each
    of them is plain; then each generated literal denotes its extension.
  */
  lemma {:induction false} RenderParseRoundTrip(exts: seq<string>)
    requires forall e :: e in exts ==> PlainExtension(e)
    ensures ParseExtensions(RenderExtensions(exts)) == Some(exts)
  {
    if exts != [] {
      var e := exts[0];
      assert e in exts;
      if |exts| == 1 {
        ParseLastItem(e);
        assert exts == [e];
      } else {
        var more := RenderExtensions(exts[1..]);
        assert RenderExtensions(exts) == QuoteExtension(e) + (", " + more);
        RenderParseRoundTrip(exts[1..]);
        ParseNextItem(e, more);
        assert [e] + exts[1..] == exts;
      }
    }
  }

  /** A single quoted extension reads back as itself. */
  lemma ParseLastItem(e: string)
    requires PlainExtension(e)
    ensures ParseExtensions(QuoteExtension(e)) == Some([e])
  {
    QuotedItemEnds(e, "");
    assert QuoteExtension(e) + "" == QuoteExtension(e);
  }

  // ---------------------------------------------------------------------------
  // The helper `replace`

  /** What a step does to the text it matched. */
  datatype Edit =
    | Append(suffix: string)                 // `s => s + suffix`
    | PrependRenamed(prefix: string, name: string)
      // `s => prefix + s.replace(name, '_' + name)`

  function ApplyEdit(edit: Edit, s: string): (r: string)
    ensures Inserts(edit) ==> |r| > |s|
  {
    match edit
    case Append(suffix) => s + suffix
    case PrependRenamed(prefix, name) =>
      prefix + ReplaceFirstLiteral(s, name, "_" + name)
  }

  /** `text.replace(regex, fn)`: only the first match is replaced. */
  function ReplaceFirst(text: string, p: Pattern, edit: Edit): (r: string)
    ensures FirstMatch(text, p).None? ==> r == text
    ensures FirstMatch(text, p).Some? && Inserts(edit) ==> |r| > |text|
  {
    match FirstMatch(text, p)
    case None => text
    case Some((i, j)) => text[..i] + ApplyEdit(edit, text[i..j]) + text[j..]
  }

  const NotFoundPrefix: string := "Search string not found: "

  /** The string `replace` throws: the pattern's source in JSON, which reads back as the source. */
  function NotFoundMessage(p: Pattern): (r: string)
    ensures |NotFoundPrefix| <= |r| && r[..|NotFoundPrefix|] == NotFoundPrefix
    ensures JsonString.Unquote(r[|NotFoundPrefix|..]) == Some(p.source)
  {
    JsonString.QuoteRoundTrip(p.source);
    var r := NotFoundPrefix + JsonString.Quote(p.source);
    assert r[|NotFoundPrefix|..] == JsonString.Quote(p.source);
    r
  }

  /**
    The helper `replace`: replaces the first match and throws when that left the
    text as it was. Only the match is rewritten, so the text is unchanged exactly
    when the match is (`ReplaceThrowsIffUnchanged`).
  */
  function Replace(text: string, p: Pattern, edit: Edit): (r: Result<string, string>)
    ensures r.Failure? ==> r.error == NotFoundMessage(p)
    ensures r.Success? ==> FirstMatch(text, p).Some? && r.value != text
  {
    match FirstMatch(text, p)
    case None => Failure(NotFoundMessage(p))
    case Some((i, j)) =>
      var edited := ApplyEdit(edit, text[i..j]);
      SpliceUnchanged(text, i, j, edited);
      if edited == text[i..j] then Failure(NotFoundMessage(p)) else Success(text[..i] + edited + text[j..])
  }

  /** `replace` throws "Search string not found" exactly when `text.replace` returned `text` itself. */
  lemma ReplaceThrowsIffUnchanged(text: string, p: Pattern, edit: Edit)
    ensures Replace(text, p, edit).Failure? <==> ReplaceFirst(text, p, edit) == text
    ensures Replace(text, p, edit).Failure? ==> Replace(text, p, edit).error == NotFoundMessage(p)
    ensures Replace(text, p, edit).Success? ==> Replace(text, p, edit).value == ReplaceFirst(text, p, edit)
  {
    match FirstMatch(text, p)
    case None =>
    case Some((i, j)) =>
      SpliceUnchanged(text, i, j, ApplyEdit(edit, text[i..j]));
  }

  /** Putting `e` in place of `text[i..j]` leaves `text` as it was exactly when `e` is `text[i..j]`. */
  lemma SpliceUnchanged(text: string, i: nat, j: nat, e: string)
    requires i <= j <= |text|
    ensures text[..i] + e + text[j..] == text <==> e == text[i..j]
  {
    var after := text[..i] + e + text[j..];
    if e == text[i..j] {
      assert after == text;
    }
  }

  /** An edit that always adds text, as every edit of the rewriting does. */
  predicate Inserts(edit: Edit) {
    match edit
    case Append(suffix) => suffix != []
    case PrependRenamed(prefix, name) => prefix != []
  }

  /**
    For the edits of the rewriting, `replace` throws if and only if the pattern
    has no match in the text (`FirstMatchSpec` says when that is): "Search string
    not found" is exact.
  */
  lemma ReplaceFailsIffNotFound(text: string, p: Pattern, edit: Edit)
    requires Inserts(edit)
    ensures Replace(text, p, edit).Failure? <==> FirstMatch(text, p).None?
  {
    match FirstMatch(text, p)
    case None =>
    case Some((i, j)) =>
      var s := text[i..j];
      if edit.PrependRenamed? {
      }
      assert |ApplyEdit(edit, s)| > |s|;
  }

  /** Where the pattern is found, `replace` edits exactly the first match. */
  lemma ReplaceAt(text: string, p: Pattern, edit: Edit, i: nat, j: nat)
    requires Inserts(edit)
    requires FirstMatch(text, p) == Some((i, j))
    ensures Replace(text, p, edit) == Success(text[..i] + ApplyEdit(edit, text[i..j]) + text[j..])
  {
    ReplaceFailsIffNotFound(text, p, edit);
  }

  /** An `Append` step puts its suffix right after the first match and changes nothing else. */
  lemma AppendStepEffect(text: string, p: Pattern, suffix: string, i: nat, j: nat)
    requires suffix != []
    requires FirstMatch(text, p) == Some((i, j))
    ensures Replace(text, p, Append(suffix)) == Success(text[..j] + suffix + text[j..])
  {
    ReplaceAt(text, p, Append(suffix), i, j);
    assert text[..i] + (text[i..j] + suffix) + text[j..] == text[..j] + suffix + text[j..];
  }

  const Keyword: string := "function "

  /**
    `name` cannot start inside the keyword of its own declaration `function <name>`:
    true of both names the rewriting renames.
  */
  predicate RenamableName(name: string) {
    |name| >= 2 &&
    forall k: nat :: k < |Keyword| ==> !(Keyword[k] == name[0] && (Keyword + name)[k + 1] == name[1])
  }

  /** In a match that starts `function <name>`, the first occurrence of `name` is the declared name. */
  lemma DeclaredNameFirst(s: string, name: string)
    requires RenamableName(name)
    requires OccursAt(s, Keyword + name, 0)
    ensures FirstMatch(s, Literal(name)) == Some((|Keyword|, |Keyword| + |name|))
  {
    var decl := Keyword + name;
    assert s[..|decl|] == decl;
    assert s[|Keyword|..|Keyword| + |name|] == decl[|Keyword|..|Keyword| + |name|] == name;
    forall k: nat | k < |Keyword| ensures !OccursAt(s, name, k) {
      assert s[k] == decl[k] && s[k + 1] == decl[k + 1];
    }
    assert IsFirstMatch(s, Literal(name), |Keyword|, |Keyword| + |name|);
    FirstMatchIs(s, Literal(name), |Keyword|, |Keyword| + |name|);
  }

  /** Renaming inside a `function <name>…` match puts `_` in front of the declared name. */
  lemma RenameInDeclaration(s: string, prefix: string, name: string)
    requires RenamableName(name)
    requires OccursAt(s, Keyword + name, 0)
    ensures ApplyEdit(PrependRenamed(prefix, name), s) == prefix + Keyword + "_" + s[|Keyword|..]
  {
    DeclaredNameFirst(s, name);
    RenameAfter(s, Keyword, name);
  }

  /** Replacing `name` right after the prefix `kw` of `s` puts `_` between them. */
  lemma RenameAfter(s: string, kw: string, name: string)
    requires OccursAt(s, kw + name, 0)
    requires FirstMatch(s, Literal(name)) == Some((|kw|, |kw| + |name|))
    ensures ReplaceFirstLiteral(s, name, "_" + name) == kw + "_" + s[|kw|..]
  {
    var rest := s[|kw| + |name|..];
    assert s[..|kw| + |name|] == kw + name;
    assert s[..|kw|] == kw;
    assert s[|kw|..] == name + rest;
    assert ReplaceFirstLiteral(s, name, "_" + name) == s[..|kw|] + ("_" + name) + rest;
  }

  /**
    A `PrependRenamed` step on a `function <name>…` match: the prefix goes
    immediately before the declaration, which is renamed to `_<name>`.
  */
  lemma RenameStepEffect(text: string, p: Pattern, prefix: string, name: string, i: nat, j: nat)
    requires prefix != [] && RenamableName(name)
    requires |p.head| >= |Keyword| + |name| && p.head[..|Keyword| + |name|] == Keyword + name
    requires FirstMatch(text, p) == Some((i, j))
    ensures Replace(text, p, PrependRenamed(prefix, name)) ==
            Success(text[..i] + prefix + Keyword + "_" + text[i + |Keyword|..])
  {
    ReplaceAt(text, p, PrependRenamed(prefix, name), i, j);
    var s := text[i..j];
    MatchStartsWithHead(text, p.head, i, j, |Keyword| + |name|);
    RenameInDeclaration(s, prefix, name);
    SpliceAfterKeyword(text, prefix, i, j);
  }

  /** A match starting with `head` at `i` starts with every prefix of `head`. */
  lemma MatchStartsWithHead(text: string, head: string, i: nat, j: nat, n: nat)
    requires OccursAt(text, head, i) && i + |head| <= j <= |text| && n <= |head|
    ensures OccursAt(text[i..j], head[..n], 0)
  {
    forall k | 0 <= k < n ensures text[i..j][k] == head[..n][k] {
      assert text[i..i + |head|][k] == text[i + k];
    }
  }

  lemma SpliceAfterKeyword(text: string, prefix: string, i: nat, j: nat)
    requires i + |Keyword| <= j <= |text|
    ensures text[..i] + (prefix + Keyword + "_" + text[i..j][|Keyword|..]) + text[j..] ==
            text[..i] + prefix + Keyword + "_" + text[i + |Keyword|..]
  {
    assert text[i..j][|Keyword|..] + text[j..] == text[i + |Keyword|..];
  }

  // ---------------------------------------------------------------------------
  // The steps of `transformTscContent`

  const SupportedTSExtensionsPattern: Pattern :=
    Pattern("supportedTSExtensions = ", ToLastSemicolon, "/supportedTSExtensions = .*(?=;)/")
  const SupportedJSExtensionsPattern: Pattern :=
    Pattern("supportedJSExtensions = ", ToLastSemicolon, "/supportedJSExtensions = .*(?=;)/")
  const AllSupportedExtensionsPattern: Pattern :=
    Pattern("allSupportedExtensions = ", ToLastSemicolon, "/allSupportedExtensions = .*(?=;)/")
  const ExtensionsToRemovePattern: Pattern :=
    Pattern("extensionsToRemove = ", ToLastSemicolon, "/extensionsToRemove = .*(?=;)/")
  const ChangeExtensionPattern: Pattern :=
    Pattern("function changeExtension(", NoTail, "/function changeExtension\\(/")
  const CreateProgramPattern: Pattern :=
    Pattern("function createProgram(", AnyThen(") {"), "/function createProgram\\(.+\\) {/")

  /** The default `typescriptObject`: an object that evaluates every property name in the compiler's scope. */
  const DefaultTypescriptObject: string :=
    "new Proxy({}, { get(_target, p, _receiver) { return eval(p); } } )"

  // The fixed text around the inserted pieces.
  const TableSuffixStart: string := ".map((group, i) => i === 0 ? group.splice(0, 0, "
  const TableSuffixEnd: string := ") && group : group)"
  const RemoveSuffixStart: string := ".concat(["
  const RemoveSuffixEnd: string := "])"
  const WrapperDecl: string := Keyword + "changeExtension"
  const WrapperStart: string := WrapperDecl + "(path, newExtension) {\n\t\t\treturn ["
  const WrapperEnd: string :=
    "].some(ext => path.endsWith(ext))\n\t\t\t\t? path + newExtension\n\t\t\t\t: _changeExtension(path, newExtension)\n\t\t\t}\n"
  const BindingStart: string := "var createProgram = require("
  const BindingCall: string := ").proxyCreateProgram("
  const BindingOriginal: string := ", _createProgram, require("
  const BindingEnd: string := ").getLanguagePlugins);\n"

  /** Makes the first group of an extension table start with the extra extensions. */
  function TableSuffix(extsText: string): string {
    TableSuffixStart + extsText + TableSuffixEnd
  }

  /** Appends the extra extensions to the list of extensions to remove. */
  function RemoveSuffix(extsText: string): string {
    RemoveSuffixStart + extsText + RemoveSuffixEnd
  }

  /** The routine put in front of the compiler's own, which is renamed `_changeExtension`. */
  function ChangeExtensionWrapper(extsText: string): string {
    WrapperStart + extsText + WrapperEnd
  }

  /**
    The inserted text declares `changeExtension` itself, so once the compiler's
    routine is renamed, calls to `changeExtension` reach the wrapper; the array
    literal it tests is `extsText`.
  */
  lemma WrapperDeclaresChangeExtension(extsText: string)
    ensures OccursAt(ChangeExtensionWrapper(extsText), WrapperDecl, 0)
    ensures OccursAt(ChangeExtensionWrapper(extsText), extsText, |WrapperStart|)
  {
    PiecesInPlace(WrapperStart, extsText, WrapperEnd);
    PiecesInPlace(WrapperDecl, WrapperStart[|WrapperDecl|..], extsText + WrapperEnd);
  }

  /** In `a + b + c`, `a` stands at the start, `b` right after it and `c` at the end. */
  lemma PiecesInPlace(a: string, b: string, c: string)
    ensures OccursAt(a + b + c, a, 0) && OccursAt(a + b + c, b, |a|)
    ensures |a + b + c| >= |c| && (a + b + c)[|a + b + c| - |c|..] == c
  {
    var r := a + b + c;
    assert r[..|a|] == a;
    assert r[|a|..|a| + |b|] == b;
    assert r[|r| - |c|..] == c;
  }

  /** The binding put in front of `createProgram`, which is renamed `_createProgram`. */
  function CreateProgramBinding(proxyApiPath: string, typescriptObject: string, getLanguagePluginsFile: string): string {
    BindingStart + JsonString.Quote(proxyApiPath) + BindingCall + typescriptObject + BindingOriginal
      + JsonString.Quote(getLanguagePluginsFile) + BindingEnd
  }

  /**
    The binding's first `require` names exactly `proxyApiPath`: the literal it
    holds reads back as the path. The binding ends the statement and the line.
  */
  lemma BindingRequiresProxyApi(proxyApiPath: string, typescriptObject: string, getLanguagePluginsFile: string)
    ensures var r := CreateProgramBinding(proxyApiPath, typescriptObject, getLanguagePluginsFile);
      var q := JsonString.Quote(proxyApiPath);
      |BindingStart| + |q| <= |r| &&
      JsonString.Unquote(r[|BindingStart|..|BindingStart| + |q|]) == Some(proxyApiPath) &&
      |r| >= |BindingEnd| && r[|r| - |BindingEnd|..] == BindingEnd
  {
    var q := JsonString.Quote(proxyApiPath);
    BindingPieces(BindingStart, q, BindingCall, typescriptObject, BindingOriginal,
                  JsonString.Quote(getLanguagePluginsFile), BindingEnd);
    JsonString.QuoteRoundTrip(proxyApiPath);
  }

  lemma BindingPieces(a: string, q: string, b: string, c: string, d: string, e: string, f: string)
    ensures var r := a + q + b + c + d + e + f;
      OccursAt(r, q, |a|) && |r| >= |f| && r[|r| - |f|..] == f
  {
    var r := a + q + b + c + d + e + f;
    PiecesInPlace(a, q, b + c + d + e + f);
    assert a + q + (b + c + d + e + f) == r;
    PiecesInPlace(a + q + b + c + d + e, [], f);
    assert a + q + b + c + d + e + [] == a + q + b + c + d + e;
  }

  /** One call of `replace`: what it searches for and how it rewrites the match. */
  datatype Step = Step(pattern: Pattern, edit: Edit)

  /** The three table patches, when there are extra supported extensions. */
  function TableSteps(extraSupported: seq<string>): (r: seq<Step>)
    ensures |r| == if extraSupported == [] then 0 else 3
  {
    if extraSupported == [] then []
    else
      var edit := Append(TableSuffix(RenderExtensions(extraSupported)));
      [Step(SupportedTSExtensionsPattern, edit), Step(SupportedJSExtensionsPattern, edit),
       Step(AllSupportedExtensionsPattern, edit)]
  }

  /** The `extensionsToRemove` patch, when there are extensions to remove. */
  function RemoveSteps(extraToRemove: seq<string>): (r: seq<Step>)
    ensures |r| == if extraToRemove == [] then 0 else 1
  {
    if extraToRemove == [] then []
    else [Step(ExtensionsToRemovePattern, Append(RemoveSuffix(RenderExtensions(extraToRemove))))]
  }

  /** The `changeExtension` wrapper, when some extension needs it. */
  function ChangeExtensionSteps(needed: seq<string>): (r: seq<Step>)
    ensures |r| == if needed == [] then 0 else 1
  {
    if needed == [] then []
    else [Step(ChangeExtensionPattern, PrependRenamed(ChangeExtensionWrapper(RenderExtensions(needed)), "changeExtension"))]
  }

  /** The `createProgram` proxy, which is always installed. */
  function CreateProgramStep(proxyApiPath: string, typescriptObject: string, getLanguagePluginsFile: string)
    : (r: Step)
    ensures Inserts(r.edit)
  {
    Step(CreateProgramPattern,
         PrependRenamed(CreateProgramBinding(proxyApiPath, typescriptObject, getLanguagePluginsFile), "createProgram"))
  }

  /** The replace steps `transformTscContent` performs, in order. */
  function Plan(proxyApiPath: string, extraSupported: seq<string>, extraToRemove: seq<string>,
                getLanguagePluginsFile: string, typescriptObject: string): (r: seq<Step>)
    ensures 1 <= |r| <= 6
  {
    TableSteps(extraSupported)
      + (RemoveSteps(extraToRemove)
      + (ChangeExtensionSteps(NeededPatchExtensions(extraSupported, extraToRemove))
      + [CreateProgramStep(proxyApiPath, typescriptObject, getLanguagePluginsFile)]))
  }

  /** Runs the steps in order; the first one that throws ends the run with its message. */
  function RunSteps(text: string, steps: seq<Step>): (r: Result<string, string>)
    ensures r.Failure? ==> exists k :: 0 <= k < |steps| && r.error == NotFoundMessage(steps[k].pattern)
    decreases |steps|
  {
    if steps == [] then Success(text)
    else
      match Replace(text, steps[0].pattern, steps[0].edit)
      case Failure(e) => Failure(e)
      case Success(next) =>
        var r := RunSteps(next, steps[1..]);
        assert r.Failure? ==> exists k :: 1 <= k < |steps| && r.error == NotFoundMessage(steps[k].pattern);
        r
  }

  /** Goes on with `rest` after `r`, unless `r` is an exception. */
  function Continue(r: Result<string, string>, rest: seq<Step>): Result<string, string> {
    if r.Failure? then r else RunSteps(r.value, rest)
  }

  /** One step of a run. */
  lemma RunStepsCons(text: string, s: Step, rest: seq<Step>)
    ensures RunSteps(text, [s] + rest) == Continue(Replace(text, s.pattern, s.edit), rest)
  {
    assert ([s] + rest)[0] == s;
    assert ([s] + rest)[1..] == rest;
  }

  /** Running two lists of steps one after the other is running their concatenation. */
  lemma {:induction false} RunStepsAppend(text: string, a: seq<Step>, b: seq<Step>)
    ensures RunSteps(text, a + b) == Continue(RunSteps(text, a), b)
    decreases |a|
  {
    if a == [] {
      assert a + b == b;
    } else {
      assert (a + b)[0] == a[0];
      assert (a + b)[1..] == a[1..] + b;
      var r := Replace(text, a[0].pattern, a[0].edit);
      if r.Success? {
        RunStepsAppend(r.value, a[1..], b);
      }
    }
  }

  /** The first block of `transformTscContent`: the three extension tables. */
  method PatchExtensionTables(tsc: string, extraSupportedExtensions: seq<string>) returns (r: Result<string, string>)
    ensures r == RunSteps(tsc, TableSteps(extraSupportedExtensions))
  {
    var text := tsc;
    if |extraSupportedExtensions| > 0 {
      var extsText := RenderExtensions(extraSupportedExtensions);
      var edit := Append(TableSuffix(extsText));
      ghost var s1, s2, s3 := Step(SupportedTSExtensionsPattern, edit), Step(SupportedJSExtensionsPattern, edit),
                              Step(AllSupportedExtensionsPattern, edit);
      assert TableSteps(extraSupportedExtensions) == [s1] + ([s2] + ([s3] + []));
      RunStepsCons(text, s1, [s2] + ([s3] + []));
      text :- Replace(text, SupportedTSExtensionsPattern, edit);
      RunStepsCons(text, s2, [s3] + []);
      text :- Replace(text, SupportedJSExtensionsPattern, edit);
      RunStepsCons(text, s3, []);
      text :- Replace(text, AllSupportedExtensionsPattern, edit);
    }
    r := Success(text);
  }

  /** The second block: the list of extensions to remove. */
  method PatchExtensionsToRemove(tsc: string, extraExtensionsToRemove: seq<string>) returns (r: Result<string, string>)
    ensures r == RunSteps(tsc, RemoveSteps(extraExtensionsToRemove))
  {
    var text := tsc;
    if |extraExtensionsToRemove| > 0 {
      var extsText := RenderExtensions(extraExtensionsToRemove);
      var edit := Append(RemoveSuffix(extsText));
      RunStepsCons(text, Step(ExtensionsToRemovePattern, edit), []);
      assert RemoveSteps(extraExtensionsToRemove) == [Step(ExtensionsToRemovePattern, edit)] + [];
      text :- Replace(text, ExtensionsToRemovePattern, edit);
    }
    r := Success(text);
  }

  /** The third block: the `changeExtension` wrapper for the extensions that need it. */
  method PatchChangeExtension(tsc: string, neededPatchExtensions: seq<string>) returns (r: Result<string, string>)
    ensures r == RunSteps(tsc, ChangeExtensionSteps(neededPatchExtensions))
  {
    var text := tsc;
    if |neededPatchExtensions| > 0 {
      var extsText := RenderExtensions(neededPatchExtensions);
      var edit := PrependRenamed(ChangeExtensionWrapper(extsText), "changeExtension");
      RunStepsCons(text, Step(ChangeExtensionPattern, edit), []);
      assert ChangeExtensionSteps(neededPatchExtensions) == [Step(ChangeExtensionPattern, edit)] + [];
      text :- Replace(text, ChangeExtensionPattern, edit);
    }
    r := Success(text);
  }

  /** The last block: the `createProgram` proxy. */
  method PatchCreateProgram(tsc: string, proxyApiPath: string, getLanguagePluginsFile: string, typescriptObject: string)
    returns (r: Result<string, string>)
    ensures r == RunSteps(tsc, [CreateProgramStep(proxyApiPath, typescriptObject, getLanguagePluginsFile)])
  {
    var edit := PrependRenamed(CreateProgramBinding(proxyApiPath, typescriptObject, getLanguagePluginsFile), "createProgram");
    RunStepsCons(tsc, Step(CreateProgramPattern, edit), []);
    assert [Step(CreateProgramPattern, edit)] + [] == [Step(CreateProgramPattern, edit)];
    r := Replace(tsc, CreateProgramPattern, edit);
  }

  /**
    `transformTscContent`: the text is rewritten block by block; a `replace`
    that throws ends the rewriting with its message.
  */
  method TransformTscContent(tsc: string, proxyApiPath: string, extraSupportedExtensions: seq<string>,
                             extraExtensionsToRemove: seq<string>, getLanguagePluginsFile: string,
                             typescriptObject: Option<string>)
    returns (r: Result<string, string>)
    ensures r == RunSteps(tsc, Plan(proxyApiPath, extraSupportedExtensions, extraExtensionsToRemove,
                                    getLanguagePluginsFile, typescriptObject.GetOr(DefaultTypescriptObject)))
  {
    var tsObject := typescriptObject.GetOr(DefaultTypescriptObject);
    var neededPatchExtensions := NeededPatchExtensions(extraSupportedExtensions, extraExtensionsToRemove);
    // the steps that remain after each block
    ghost var afterChange := [CreateProgramStep(proxyApiPath, tsObject, getLanguagePluginsFile)];
    ghost var afterRemove := ChangeExtensionSteps(neededPatchExtensions) + afterChange;
    ghost var afterTables := RemoveSteps(extraExtensionsToRemove) + afterRemove;
    var text := tsc;
    RunStepsAppend(text, TableSteps(extraSupportedExtensions), afterTables);
    text :- PatchExtensionTables(text, extraSupportedExtensions);
    RunStepsAppend(text, RemoveSteps(extraExtensionsToRemove), afterRemove);
    text :- PatchExtensionsToRemove(text, extraExtensionsToRemove);
    RunStepsAppend(text, ChangeExtensionSteps(neededPatchExtensions), afterChange);
    text :- PatchChangeExtension(text, neededPatchExtensions);
    r := PatchCreateProgram(text, proxyApiPath, getLanguagePluginsFile, tsObject);
  }

  // ---------------------------------------------------------------------------
  // What the plan contains

  /** Some step of `steps` searches for `p`. */
  predicate Searches(steps: seq<Step>, p: Pattern) {
    exists k :: 0 <= k < |steps| && steps[k].pattern == p
  }

  lemma SearchesAppend(a: seq<Step>, b: seq<Step>, p: Pattern)
    ensures Searches(a + b, p) <==> Searches(a, p) || Searches(b, p)
  {
    if Searches(a + b, p) {
      var k :| 0 <= k < |a + b| && (a + b)[k].pattern == p;
      if k >= |a| {
        assert b[k - |a|].pattern == p;
      }
    }
    if Searches(b, p) {
      var k :| 0 <= k < |b| && b[k].pattern == p;
      assert (a + b)[k + |a|].pattern == p;
    }
    if Searches(a, p) {
      var k :| 0 <= k < |a| && a[k].pattern == p;
      assert (a + b)[k].pattern == p;
    }
  }

  /**
    The table steps: none without extra supported extensions, otherwise one for
    each table, in the order `supportedTSExtensions`, `supportedJSExtensions`,
    `allSupportedExtensions`, each appending the same `.map(…)` suffix.
  */
  lemma TableStepsShape(extraSupported: seq<string>)
    ensures extraSupported == [] ==> TableSteps(extraSupported) == []
    ensures extraSupported != [] ==>
      var edit := Append(TableSuffixStart + RenderExtensions(extraSupported) + TableSuffixEnd);
      TableSteps(extraSupported) ==
        [Step(SupportedTSExtensionsPattern, edit), Step(SupportedJSExtensionsPattern, edit),
         Step(AllSupportedExtensionsPattern, edit)]
  {
  }

  /** The plan starts with the table steps. */
  lemma PlanStartsWithTables(proxyApiPath: string, extraSupported: seq<string>, extraToRemove: seq<string>,
                             getLanguagePluginsFile: string, typescriptObject: string)
    ensures var plan := Plan(proxyApiPath, extraSupported, extraToRemove, getLanguagePluginsFile, typescriptObject);
      |TableSteps(extraSupported)| <= |plan| && plan[..|TableSteps(extraSupported)|] == TableSteps(extraSupported)
  {
  }

  /** The `createProgram` step is always there, and it is the last step. */
  lemma PlanEndsWithCreateProgram(proxyApiPath: string, extraSupported: seq<string>, extraToRemove: seq<string>,
                                  getLanguagePluginsFile: string, typescriptObject: string)
    ensures var plan := Plan(proxyApiPath, extraSupported, extraToRemove, getLanguagePluginsFile, typescriptObject);
      plan != [] && plan[|plan| - 1] == CreateProgramStep(proxyApiPath, typescriptObject, getLanguagePluginsFile)
  {
  }

  /** The `extensionsToRemove` table is patched if and only if there are extensions to remove. */
  lemma PlanRemovesIffExtensionsToRemove(proxyApiPath: string, extraSupported: seq<string>, extraToRemove: seq<string>,
                                         getLanguagePluginsFile: string, typescriptObject: string)
    ensures var plan := Plan(proxyApiPath, extraSupported, extraToRemove, getLanguagePluginsFile, typescriptObject);
      Searches(plan, ExtensionsToRemovePattern) <==> extraToRemove != []
  {
    var p := ExtensionsToRemovePattern;
    var tables := TableSteps(extraSupported);
    var remove := RemoveSteps(extraToRemove);
    var change := ChangeExtensionSteps(NeededPatchExtensions(extraSupported, extraToRemove));
    var last := [CreateProgramStep(proxyApiPath, typescriptObject, getLanguagePluginsFile)];
    SearchesAppend(tables, remove + (change + last), p);
    SearchesAppend(remove, change + last, p);
    SearchesAppend(change, last, p);
    assert !Searches(tables, p) && !Searches(change, p) && !Searches(last, p);
    assert extraToRemove != [] ==> remove[0].pattern == p;
  }

  /**
    Each of the three extension tables is patched if and only if there are
    extra supported extensions.
  */
  lemma PlanPatchesTablesIff(proxyApiPath: string, extraSupported: seq<string>, extraToRemove: seq<string>,
                             getLanguagePluginsFile: string, typescriptObject: string)
    ensures var plan := Plan(proxyApiPath, extraSupported, extraToRemove, getLanguagePluginsFile, typescriptObject);
      && (Searches(plan, SupportedTSExtensionsPattern) <==> extraSupported != [])
      && (Searches(plan, SupportedJSExtensionsPattern) <==> extraSupported != [])
      && (Searches(plan, AllSupportedExtensionsPattern) <==> extraSupported != [])
  {
    PlanSearchesTable(proxyApiPath, extraSupported, extraToRemove, getLanguagePluginsFile, typescriptObject, 0);
    PlanSearchesTable(proxyApiPath, extraSupported, extraToRemove, getLanguagePluginsFile, typescriptObject, 1);
    PlanSearchesTable(proxyApiPath, extraSupported, extraToRemove, getLanguagePluginsFile, typescriptObject, 2);
  }

  /** The three table patterns, in the order the rewriting patches them. */
  const TablePatterns: seq<Pattern> :=
    [SupportedTSExtensionsPattern, SupportedJSExtensionsPattern, AllSupportedExtensionsPattern]

  lemma PlanSearchesTable(proxyApiPath: string, extraSupported: seq<string>, extraToRemove: seq<string>,
                          getLanguagePluginsFile: string, typescriptObject: string, t: nat)
    requires t < 3
    ensures var plan := Plan(proxyApiPath, extraSupported, extraToRemove, getLanguagePluginsFile, typescriptObject);
      Searches(plan, TablePatterns[t]) <==> extraSupported != []
  {
    var p := TablePatterns[t];
    // The other steps' patterns differ from `p` in their tail or in the length of their head.
    assert p.tail == ToLastSemicolon && |p.head| >= 24 && |ExtensionsToRemovePattern.head| == 21;
    var tables := TableSteps(extraSupported);
    var remove := RemoveSteps(extraToRemove);
    var change := ChangeExtensionSteps(NeededPatchExtensions(extraSupported, extraToRemove));
    var last := [CreateProgramStep(proxyApiPath, typescriptObject, getLanguagePluginsFile)];
    SearchesAppend(tables, remove + (change + last), p);
    SearchesAppend(remove, change + last, p);
    SearchesAppend(change, last, p);
    assert !Searches(remove, p) && !Searches(change, p) && !Searches(last, p);
    assert extraSupported != [] ==> tables[t].pattern == p;
  }

  /**
    The `changeExtension` wrapper is installed if and only if some supported
    extension is not also to be removed.
  */
  lemma PlanWrapsIffNeeded(proxyApiPath: string, extraSupported: seq<string>, extraToRemove: seq<string>,
                           getLanguagePluginsFile: string, typescriptObject: string)
    ensures var plan := Plan(proxyApiPath, extraSupported, extraToRemove, getLanguagePluginsFile, typescriptObject);
      Searches(plan, ChangeExtensionPattern) <==> exists e :: e in extraSupported && e !in extraToRemove
  {
    var p := ChangeExtensionPattern;
    var needed := NeededPatchExtensions(extraSupported, extraToRemove);
    var tables := TableSteps(extraSupported);
    var remove := RemoveSteps(extraToRemove);
    var change := ChangeExtensionSteps(needed);
    var last := [CreateProgramStep(proxyApiPath, typescriptObject, getLanguagePluginsFile)];
    SearchesAppend(tables, remove + (change + last), p);
    SearchesAppend(remove, change + last, p);
    SearchesAppend(change, last, p);
    assert !Searches(tables, p) && !Searches(remove, p) && !Searches(last, p);
    assert needed != [] ==> change[0].pattern == p;
    NeededPatchExtensionsMembers(extraSupported, extraToRemove);
    if needed != [] {
      assert needed[0] in needed;
    }
  }

  /** Without options the only step is the `createProgram` proxy. */
  lemma EmptyOptionsPlan(proxyApiPath: string, getLanguagePluginsFile: string, typescriptObject: string)
    ensures Plan(proxyApiPath, [], [], getLanguagePluginsFile, typescriptObject) ==
            [CreateProgramStep(proxyApiPath, typescriptObject, getLanguagePluginsFile)]
  {
    assert NeededPatchExtensions([], []) == [];
  }

  /**
    Every step of the plan adds text where its pattern matches, so each
    `replace` of the rewriting throws exactly when its pattern is not found
    (`ReplaceFailsIffNotFound`).
  */
  lemma PlanStepsInsert(proxyApiPath: string, extraSupported: seq<string>, extraToRemove: seq<string>,
                        getLanguagePluginsFile: string, typescriptObject: string)
    ensures var plan := Plan(proxyApiPath, extraSupported, extraToRemove, getLanguagePluginsFile, typescriptObject);
      forall k :: 0 <= k < |plan| ==> Inserts(plan[k].edit)
  {
    var tables := TableSteps(extraSupported);
    var remove := RemoveSteps(extraToRemove);
    var change := ChangeExtensionSteps(NeededPatchExtensions(extraSupported, extraToRemove));
    var last := [CreateProgramStep(proxyApiPath, typescriptObject, getLanguagePluginsFile)];
    assert |TableSuffixStart| > 0 && |RemoveSuffixStart| > 0 && |WrapperStart| > 0 && |BindingStart| > 0;
    assert forall k :: 0 <= k < |tables| ==> Inserts(tables[k].edit);
    assert forall k :: 0 <= k < |remove| ==> Inserts(remove[k].edit);
    assert forall k :: 0 <= k < |change| ==> Inserts(change[k].edit);
    assert Inserts(last[0].edit);
  }

  /**
    A compiler text without `function createProgram(… ) {` cannot be rewritten
    with no options: the rewriting throws, naming that pattern.
  */
  lemma MissingCreateProgramThrows(tsc: string, proxyApiPath: string, getLanguagePluginsFile: string,
                                   typescriptObject: string)
    requires forall i: nat, j: nat :: !IsMatch(tsc, CreateProgramPattern, i, j)
    ensures RunSteps(tsc, Plan(proxyApiPath, [], [], getLanguagePluginsFile, typescriptObject)) ==
            Failure(NotFoundMessage(CreateProgramPattern))
  {
    EmptyOptionsPlan(proxyApiPath, getLanguagePluginsFile, typescriptObject);
    FirstMatchSpec(tsc, CreateProgramPattern);
    SingleStepNotFound(tsc, CreateProgramStep(proxyApiPath, typescriptObject, getLanguagePluginsFile));
  }

  lemma SingleStepNotFound(text: string, s: Step)
    requires FirstMatch(text, s.pattern).None?
    ensures RunSteps(text, [s]) == Failure(NotFoundMessage(s.pattern))
  {
    RunStepsCons(text, s, []);
    assert [s] + [] == [s];
  }

  /** Both renamed declarations start their patterns and cannot be mistaken for the keyword. */
  lemma NamesRenamable()
    ensures RenamableName("createProgram") && RenamableName("changeExtension")
    ensures CreateProgramPattern.head[..|Keyword| + |"createProgram"|] == Keyword + "createProgram"
    ensures ChangeExtensionPattern.head[..|Keyword| + |"changeExtension"|] == Keyword + "changeExtension"
  {
  }

  /** What the `createProgram` step does when the declaration is found: binding first, then `_createProgram`. */
  lemma CreateProgramStepEffect(text: string, proxyApiPath: string, typescriptObject: string,
                                getLanguagePluginsFile: string, i: nat, j: nat)
    requires FirstMatch(text, CreateProgramPattern) == Some((i, j))
    ensures var s := CreateProgramStep(proxyApiPath, typescriptObject, getLanguagePluginsFile);
      Replace(text, s.pattern, s.edit) ==
        Success(text[..i] + CreateProgramBinding(proxyApiPath, typescriptObject, getLanguagePluginsFile)
                + Keyword + "_" + text[i + |Keyword|..])
  {
    var name := "createProgram";
    NamesRenamable();
    RenameStepEffect(text, CreateProgramPattern, CreateProgramBinding(proxyApiPath, typescriptObject, getLanguagePluginsFile),
                     name, i, j);
  }

  /** What the `changeExtension` step does when the declaration is found: wrapper first, then `_changeExtension`. */
  lemma ChangeExtensionStepEffect(text: string, needed: seq<string>, i: nat, j: nat)
    requires needed != []
    requires FirstMatch(text, ChangeExtensionPattern) == Some((i, j))
    ensures var s := ChangeExtensionSteps(needed)[0];
      Replace(text, s.pattern, s.edit) ==
        Success(text[..i] + ChangeExtensionWrapper(RenderExtensions(needed)) + Keyword + "_" + text[i + |Keyword|..])
  {
    var name := "changeExtension";
    NamesRenamable();
    RenameStepEffect(text, ChangeExtensionPattern, ChangeExtensionWrapper(RenderExtensions(needed)), name, i, j);
  }

  // ---------------------------------------------------------------------------
  // The inserted `changeExtension` routine

  /** JavaScript's `path.endsWith(ext)`. */
  predicate EndsWith(path: string, ext: string) {
    |ext| <= |path| && path[|path| - |ext|..] == ext
  }

  /** `exts.some(ext => path.endsWith(ext))`, scanning left to right. */
  function SomeEndsWith(path: string, exts: seq<string>): bool {
    if exts == [] then false else EndsWith(path, exts[0]) || SomeEndsWith(path, exts[1..])
  }

  lemma {:induction false} SomeEndsWithExists(path: string, exts: seq<string>)
    ensures SomeEndsWith(path, exts) <==> exists e :: e in exts && EndsWith(path, e)
  {
    if exts != [] {
      SomeEndsWithExists(path, exts[1..]);
      assert forall e :: e in exts <==> e == exts[0] || e in exts[1..];
    }
  }

  /**
    The inserted routine: a path ending in one of the listed extensions keeps its
    name and gets the new extension appended; any other path goes to the
    compiler's own routine, renamed `_changeExtension` and given here as `original`.
  */
  function WrappedChangeExtension(exts: seq<string>, path: string, newExtension: string,
                                  original: (string, string) -> string): (r: string)
    ensures (exists e :: e in exts && EndsWith(path, e)) ==> r == path + newExtension
    ensures (forall e :: e in exts ==> !EndsWith(path, e)) ==> r == original(path, newExtension)
  {
    SomeEndsWithExists(path, exts);
    if SomeEndsWith(path, exts) then path + newExtension else original(path, newExtension)
  }

  /**
    `changeExtension` in the rewritten compiler: the compiler's own routine when
    no extension needs the wrapper; otherwise the inserted routine over the
    list its array literal holds. None stands for a generated list this model
    does not read: one with a literal that is not a plain extension.
  */
  function PatchedChangeExtension(extraSupported: seq<string>, extraToRemove: seq<string>, path: string,
                                  newExtension: string, original: (string, string) -> string): (r: Option<string>)
    ensures NeededPatchExtensions(extraSupported, extraToRemove) == [] ==> r == Some(original(path, newExtension))
  {
    var needed := NeededPatchExtensions(extraSupported, extraToRemove);
    if needed == [] then Some(original(path, newExtension))
    else
      match ParseExtensions(RenderExtensions(needed))
      case Some(listed) => Some(WrappedChangeExtension(listed, path, newExtension, original))
      case None => None
  }

  /**
    For plain extensions: a path ending in a supported extension that is not to
    be removed gets the new extension appended (`basename.xxx` to
    `basename.xxx.d.ts`); every other path is handled by the compiler's own routine.
  */
  lemma PatchedChangeExtensionSpec(extraSupported: seq<string>, extraToRemove: seq<string>, path: string,
                                   newExtension: string, original: (string, string) -> string)
    requires forall e :: e in extraSupported ==> PlainExtension(e)
    ensures PatchedChangeExtension(extraSupported, extraToRemove, path, newExtension, original) ==
      Some(if exists e :: e in extraSupported && e !in extraToRemove && EndsWith(path, e)
           then path + newExtension
           else original(path, newExtension))
  {
    var needed := NeededPatchExtensions(extraSupported, extraToRemove);
    NeededPatchExtensionsMembers(extraSupported, extraToRemove);
    if needed != [] {
      RenderParseRoundTrip(needed);
    }
    if exists e :: e in extraSupported && e !in extraToRemove && EndsWith(path, e) {
      var e :| e in extraSupported && e !in extraToRemove && EndsWith(path, e);
      assert e in needed;
    }
  }

  /** `.foo` supported and nothing removed: `basename.foo` becomes `basename.foo.d.ts`. */
  lemma SupportedExtensionKeptInOutputName(original: (string, string) -> string)
    ensures PatchedChangeExtension([".foo"], [], "basename.foo", ".d.ts", original) == Some("basename.foo.d.ts")
  {
    assert PlainExtension(".foo");
    PatchedChangeExtensionSpec([".foo"], [], "basename.foo", ".d.ts", original);
    assert ".foo" in [".foo"] && ".foo" !in [] && EndsWith("basename.foo", ".foo");
    assert "basename.foo" + ".d.ts" == "basename.foo.d.ts";
  }

  /** `.foo` supported and also removed: the compiler's own routine decides the output name. */
  lemma RemovedExtensionLeftToCompiler(original: (string, string) -> string)
    ensures PatchedChangeExtension([".foo"], [".foo"], "basename.foo", ".d.ts", original) ==
            Some(original("basename.foo", ".d.ts"))
  {
    assert PlainExtension(".foo");
    PatchedChangeExtensionSpec([".foo"], [".foo"], "basename.foo", ".d.ts", original);
  }
}
