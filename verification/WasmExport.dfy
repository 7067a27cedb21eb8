/** The `#[wasm_export]` rewrite of impl blocks and functions. */
module WasmExport {
  import opened Wrappers

  datatype Value = Literal(text: string) | Code(text: string)

  /**
   * An attribute or an attribute argument. The arguments of a list are what they mean to the
   * attribute's own macro; `parses` says whether they also read as a comma-separated list of metas.
   */
  datatype Meta =
    | Word(path: string)
    | List(path: string, args: seq<Meta>, parses: bool)
    | NameValue(path: string, value: Value)

  datatype Method = Method(ident: string, isPublic: bool, generic: bool, attrs: seq<Meta>)

  datatype Item = Fn(fn: Method) | Other(text: string)

  datatype ImplBlock = ImplBlock(generic: bool, attrs: seq<Meta>, items: seq<Item>)

  datatype Function = Function(ident: string, generic: bool, attrs: seq<Meta>)

  datatype Error = BadArguments | GenericItem | LeftoverBindgen | BadNote | RawIdent | GenericMethod

  const WASM_FEATURE := NameValue("feature", Literal("wasm"))
  const BINDGEN_PATH := "::bitwarden_ffi::_macro::wasm_bindgen"
  const PREFIX := "__wasm_only_"
  const DEFAULT_NOTE := "This is a WASM-only binding. Calling it from Rust is not allowed."

  // ---------------------------------------------------------------- reading attributes

  function FindPath(ms: seq<Meta>, path: string): (r: Option<Meta>)
    ensures r.Some? <==> exists i :: 0 <= i < |ms| && ms[i].path == path
    ensures r.Some? ==> r.value in ms && r.value.path == path
  {
    if ms == [] then None else if ms[0].path == path then Some(ms[0]) else FindPath(ms[1..], path)
  }

  /** The `wasm_bindgen(..)` arguments an attribute is seen to carry. */
  function WasmBindgenArgs(a: Meta): Option<seq<Meta>> {
    var inner :=
      if a.path == "wasm_bindgen" then Some(a)
      else if a.path == "cfg_attr" && a.List? && a.parses then FindPath(a.args, "wasm_bindgen")
      else None;
    if inner.None? then None
    else if !inner.value.List? then Some([])
    else if inner.value.parses then Some(inner.value.args)
    else None
  }

  predicate IsNaming(m: Meta) {
    m.path == "js_name" || m.path == "constructor"
  }

  predicate Names(args: seq<Meta>) {
    exists i :: 0 <= i < |args| && IsNaming(args[i])
  }

  /** The rewrite finds a JavaScript name among a method's attributes. */
  predicate SeesName(attrs: seq<Meta>) {
    exists i :: 0 <= i < |attrs| && WasmBindgenArgs(attrs[i]).Some? && Names(WasmBindgenArgs(attrs[i]).value)
  }

  predicate CarriesBindgen(attrs: seq<Meta>) {
    exists i :: 0 <= i < |attrs| && WasmBindgenArgs(attrs[i]).Some?
  }

  // ---------------------------------------------------------------- the rewrite

  /** The position of the marker, or the number of attributes. */
  function Marker(attrs: seq<Meta>): (k: nat)
    ensures k <= |attrs| && forall i :: 0 <= i < k ==> attrs[i].path != "wasm_only"
    ensures k < |attrs| ==> attrs[k].path == "wasm_only"
  {
    if attrs == [] || attrs[0].path == "wasm_only" then 0 else 1 + Marker(attrs[1..])
  }

  predicate Marked(attrs: seq<Meta>) {
    Marker(attrs) < |attrs|
  }

  predicate IsNote(m: Meta) {
    m.NameValue? && m.path == "note" && m.value.Literal?
  }

  predicate GoodMarker(a: Meta) {
    a.Word? || (a.List? && a.parses && forall i :: 0 <= i < |a.args| ==> IsNote(a.args[i]))
  }

  /** The deprecation note of a marker: its last `note`, or the default. */
  function Note(a: Meta): string
    requires GoodMarker(a)
  {
    if a.List? && a.args != [] then a.args[|a.args| - 1].value.text else DEFAULT_NOTE
  }

  function Decoration(note: string): seq<Meta> {
    [ List("doc", [Word("hidden")], true),
      List("deprecated", [NameValue("note", Literal(note))], true),
      List("allow", [Word("deprecated")], true) ]
  }

  function JsNameArg(name: string): Meta {
    NameValue("js_name", Literal(name))
  }

  /** `#[cfg_attr(feature = "wasm", wasm_bindgen(js_name = ..))]` */
  function JsNameAttr(name: string): Meta {
    List("cfg_attr", [WASM_FEATURE, List("wasm_bindgen", [JsNameArg(name)], true)], true)
  }

  function WasmBindgenAttr(args: seq<Meta>): Meta {
    List("cfg_attr", [WASM_FEATURE, if args == [] then Word(BINDGEN_PATH) else List(BINDGEN_PATH, args, true)], true)
  }

  function Erased(attrs: seq<Meta>): seq<Meta> {
    var k := Marker(attrs);
    if k == |attrs| then attrs else attrs[..k] + attrs[k + 1..]
  }

  predicate IsRaw(ident: string) {
    "r#" <= ident
  }

  function MarkerError(ident: string, attrs: seq<Meta>): Option<Error> {
    if !Marked(attrs) then None
    else if !GoodMarker(attrs[Marker(attrs)]) then Some(BadNote)
    else if IsRaw(ident) then Some(RawIdent)
    else None
  }

  /** Attributes after the marker has been applied. */
  function Redecorated(attrs: seq<Meta>): seq<Meta>
    requires Marked(attrs) ==> GoodMarker(attrs[Marker(attrs)])
  {
    if Marked(attrs) then Erased(attrs) + Decoration(Note(attrs[Marker(attrs)])) else attrs
  }

  function Renamed(ident: string, attrs: seq<Meta>): string {
    if Marked(attrs) then PREFIX + ident else ident
  }

  method ReadNote(a: Meta) returns (r: Option<string>)
    ensures r == if GoodMarker(a) then Some(Note(a)) else None
  {
    if a.Word? {
      return Some(DEFAULT_NOTE);
    }
    if !a.List? || !a.parses {
      return None;
    }
    var note: Option<string> := None;
    for i := 0 to |a.args|
      invariant forall j :: 0 <= j < i ==> IsNote(a.args[j])
      invariant note == if i == 0 then None else Some(a.args[i - 1].value.text)
    {
      if !IsNote(a.args[i]) {
        return None;
      }
      note := Some(a.args[i].value.text);
    }
    r := Some(if note.Some? then note.value else DEFAULT_NOTE);
  }

  /** Takes the marker off, decorates and renames; `original` is the name the item had. */
  method ApplyWasmOnly(attrs: seq<Meta>, ident: string)
    returns (r: Result<Option<string>, Error>, newAttrs: seq<Meta>, newIdent: string)
    ensures r.Err? <==> MarkerError(ident, attrs).Some?
    ensures r.Err? ==> r.error == MarkerError(ident, attrs).value
    ensures r.Ok? ==> r.value == (if Marked(attrs) then Some(ident) else None)
    ensures r.Ok? ==> newAttrs == Redecorated(attrs) && newIdent == Renamed(ident, attrs)
  {
    newAttrs, newIdent := attrs, ident;
    var idx := 0;
    while idx < |attrs| && attrs[idx].path != "wasm_only"
      invariant idx <= Marker(attrs)
    {
      idx := idx + 1;
    }
    if idx == |attrs| {
      return Ok(None), newAttrs, newIdent;
    }
    assert idx == Marker(attrs);
    var marker := newAttrs[idx];
    newAttrs := newAttrs[..idx] + newAttrs[idx + 1..];
    var note := ReadNote(marker);
    if note.None? {
      return Err(BadNote), newAttrs, newIdent;
    }
    if IsRaw(ident) {
      return Err(RawIdent), newAttrs, newIdent;
    }
    ghost var erased := newAttrs;
    newAttrs := newAttrs + [List("doc", [Word("hidden")], true)];
    newAttrs := newAttrs + [List("deprecated", [NameValue("note", Literal(note.value))], true)];
    newAttrs := newAttrs + [List("allow", [Word("deprecated")], true)];
    assert newAttrs == erased + Decoration(note.value);
    newIdent := PREFIX + ident;
    r := Ok(Some(ident));
  }

  function MethodError(m: Method): Option<Error> {
    if MarkerError(m.ident, m.attrs).Some? then MarkerError(m.ident, m.attrs)
    else if m.isPublic && m.generic then Some(GenericMethod)
    else None
  }

  /** A method after the rewrite. */
  function Rewritten(m: Method): Method
    requires MethodError(m).None?
  {
    var attrs := Redecorated(m.attrs);
    m.(ident := Renamed(m.ident, m.attrs),
       attrs := attrs + if Marked(m.attrs) && m.isPublic && !SeesName(attrs) then [JsNameAttr(m.ident)] else [])
  }

  predicate ItemAccepted(i: Item) {
    i.Fn? ==> MethodError(i.fn).None?
  }

  function ItemRewritten(i: Item): Item
    requires ItemAccepted(i)
  {
    if i.Fn? then Fn(Rewritten(i.fn)) else i
  }

  predicate Exportable(generic: bool, attrs: seq<Meta>) {
    !generic && !CarriesBindgen(attrs)
  }

  predicate Accepted(args: Option<seq<Meta>>, b: ImplBlock) {
    args.Some? && Exportable(b.generic, b.attrs) && forall i :: 0 <= i < |b.items| ==> ItemAccepted(b.items[i])
  }

  /** An accepted block after the rewrite. */
  function Expansion(args: seq<Meta>, b: ImplBlock): (r: ImplBlock)
    requires Accepted(Some(args), b)
    ensures |r.items| == |b.items|
  {
    b.(attrs := [WasmBindgenAttr(args)] + b.attrs,
       items := seq(|b.items|, i requires 0 <= i < |b.items| => ItemRewritten(b.items[i])))
  }

  /** The rewrite of an impl block; the arguments are absent when they do not parse. */
  method ExpandImpl(args: Option<seq<Meta>>, b: ImplBlock) returns (r: Result<ImplBlock, Error>)
    ensures r.Ok? <==> Accepted(args, b)
    ensures r.Ok? ==> r.value == Expansion(args.value, b)
    ensures args.None? ==> r == Err(BadArguments)
    ensures args.Some? && b.generic ==> r == Err(GenericItem)
    ensures args.Some? && !b.generic && CarriesBindgen(b.attrs) ==> r == Err(LeftoverBindgen)
    ensures r.Err? && args.Some? && Exportable(b.generic, b.attrs) ==>
              exists i :: 0 <= i < |b.items| && b.items[i].Fn? && MethodError(b.items[i].fn) == Some(r.error)
                          && forall j :: 0 <= j < i ==> ItemAccepted(b.items[j])
  {
    if args.None? {
      return Err(BadArguments);
    }
    if b.generic {
      return Err(GenericItem);
    }
    if CarriesBindgen(b.attrs) {
      return Err(LeftoverBindgen);
    }
    var items := b.items;
    for i := 0 to |items|
      invariant |items| == |b.items|
      invariant forall j :: 0 <= j < i ==> ItemAccepted(b.items[j]) && items[j] == ItemRewritten(b.items[j])
      invariant forall j :: i <= j < |items| ==> items[j] == b.items[j]
    {
      if items[i].Other? {
        continue;
      }
      var m := items[i].fn;
      var renamed, attrs, ident := ApplyWasmOnly(m.attrs, m.ident);
      if renamed.Err? {
        return Err(renamed.error);
      }
      if m.isPublic {
        if m.generic {
          return Err(GenericMethod);
        }
        if renamed.value.Some? && !SeesName(attrs) {
          attrs := attrs + [JsNameAttr(renamed.value.value)];
        }
      }
      items := items[i := Fn(m.(ident := ident, attrs := attrs))];
    }
    r := Ok(b.(attrs := [WasmBindgenAttr(args.value)] + b.attrs, items := items));
    assert r.value.items == Expansion(args.value, b).items;
  }

  // ---------------------------------------------------------------- the texts themselves

  /** The note of a marker: the default text, or that of its last argument. */
  lemma {:induction false} NoteText(a: Meta)
    requires GoodMarker(a)
    ensures a.Word? || a.args == [] ==> Note(a) == "This is a WASM-only binding. Calling it from Rust is not allowed."
    ensures a.List? && a.args != [] ==> a.args[|a.args| - 1] == NameValue("note", Literal(Note(a)))
  {
    if a.List? && a.args != [] {
      assert IsNote(a.args[|a.args| - 1]);
    }
  }

  /** A marked method, written out: its attributes without the marker, hidden, deprecated with the note, and allowed
      to be used; and for a public one without a name of its own, the JavaScript name under the wasm feature. */
  lemma {:induction false} MarkedMethodText(m: Method)
    requires MethodError(m).None? && Marked(m.attrs)
    ensures var r, kept, note := Rewritten(m), Erased(m.attrs), Note(m.attrs[Marker(m.attrs)]);
            && r.ident == "__wasm_only_" + m.ident && r.isPublic == m.isPublic && r.generic == m.generic
            && kept + [ List("doc", [Word("hidden")], true),
                        List("deprecated", [NameValue("note", Literal(note))], true),
                        List("allow", [Word("deprecated")], true) ] <= r.attrs
            && r.attrs[|kept| + 3..] ==
               if m.isPublic && !SeesName(Redecorated(m.attrs)) then
                 [ List("cfg_attr", [ NameValue("feature", Literal("wasm")),
                                      List("wasm_bindgen", [NameValue("js_name", Literal(m.ident))], true) ], true) ]
               else []
  {
  }

  /** An unmarked method stays as it is. */
  lemma {:induction false} UnmarkedMethodText(m: Method)
    requires MethodError(m).None? && forall i :: 0 <= i < |m.attrs| ==> m.attrs[i].path != "wasm_only"
    ensures Rewritten(m) == m
  {
    assert m.attrs + [] == m.attrs;
  }

  /** The attribute the macro puts on a block or function, written out. */
  lemma {:induction false} MacroAttrText(args: seq<Meta>)
    ensures WasmBindgenAttr(args) ==
            List("cfg_attr", [ NameValue("feature", Literal("wasm")),
                               if args == [] then Word("::bitwarden_ffi::_macro::wasm_bindgen")
                               else List("::bitwarden_ffi::_macro::wasm_bindgen", args, true) ], true)
  {
  }

  /** What is refused of a method: a bad marker first, whatever the visibility, then generics if it is public. */
  lemma {:induction false} MethodErrors(m: Method)
    ensures !Marked(m.attrs) && !(m.isPublic && m.generic) ==> MethodError(m) == None
    ensures !Marked(m.attrs) && m.isPublic && m.generic ==> MethodError(m) == Some(GenericMethod)
    ensures Marked(m.attrs) && m.attrs[Marker(m.attrs)].NameValue? ==> MethodError(m) == Some(BadNote)
    ensures Marked(m.attrs) && GoodMarker(m.attrs[Marker(m.attrs)]) && !("r#" <= m.ident) ==>
              MethodError(m) == if m.isPublic && m.generic then Some(GenericMethod) else None
  {
  }

  /** A leftover wasm_bindgen is seen plainly and under `cfg_attr`, and makes a block unacceptable. */
  lemma {:induction false} LeftoverRefused(args: Option<seq<Meta>>, b: ImplBlock, i: nat, inner: Meta, cfg: seq<Meta>)
    requires i < |b.attrs| && inner.path == "wasm_bindgen" && (inner.List? ==> inner.parses)
    requires b.attrs[i] == inner || (b.attrs[i] == List("cfg_attr", cfg, true) && FindPath(cfg, "wasm_bindgen") == Some(inner))
    ensures !Accepted(args, b)
  {
    assert WasmBindgenArgs(b.attrs[i]).Some?;
  }

  // ---------------------------------------------------------------- Rust names

  predicate DistinctIdents(items: seq<Item>) {
    forall i, j :: 0 <= i < j < |items| && items[i].Fn? && items[j].Fn? ==> items[i].fn.ident != items[j].fn.ident
  }

  /** An unmarked method already has the name a marked one is given. */
  predicate Clash(items: seq<Item>) {
    exists i, j :: 0 <= i < |items| && 0 <= j < |items| && items[i].Fn? && items[j].Fn?
                   && Marked(items[i].fn.attrs) && !Marked(items[j].fn.attrs)
                   && items[j].fn.ident == PREFIX + items[i].fn.ident
  }

  lemma {:induction false} PrefixInjective(x: string, y: string)
    ensures PREFIX + x == PREFIX + y <==> x == y
  {
    assert (PREFIX + x)[|PREFIX|..] == x && (PREFIX + y)[|PREFIX|..] == y;
  }

  /** Renaming keeps method names apart exactly when no unmarked method has a marked one's new name. */
  lemma {:induction false} RenamedDistinctIff(args: seq<Meta>, b: ImplBlock)
    requires Accepted(Some(args), b) && DistinctIdents(b.items)
    ensures DistinctIdents(Expansion(args, b).items) <==> !Clash(b.items)
  {
    var xs, ys := b.items, Expansion(args, b).items;
    forall i, j | 0 <= i < j < |xs| && xs[i].Fn? && xs[j].Fn? && ys[i].fn.ident == ys[j].fn.ident ensures Clash(xs) {
      PrefixInjective(xs[i].fn.ident, xs[j].fn.ident);
      assert xs[i].fn.ident != xs[j].fn.ident;
    }
    if Clash(xs) {
      var i, j :| 0 <= i < |xs| && 0 <= j < |xs| && xs[i].Fn? && xs[j].Fn? && Marked(xs[i].fn.attrs)
                  && !Marked(xs[j].fn.attrs) && xs[j].fn.ident == PREFIX + xs[i].fn.ident;
      assert ys[i].fn.ident == ys[j].fn.ident && i != j;
      assert !DistinctIdents(ys) by {
        if i < j { } else { }
      }
    }
  }

  // ---------------------------------------------------------------- free functions

  predicate AcceptedFn(args: Option<seq<Meta>>, f: Function) {
    args.Some? && Exportable(f.generic, f.attrs) && MarkerError(f.ident, f.attrs).None?
  }

  predicate HasPath(args: seq<Meta>, path: string) {
    exists i :: 0 <= i < |args| && args[i].path == path
  }

  /** The arguments of the function's one wasm_bindgen attribute after the rewrite. */
  function FnArgs(args: seq<Meta>, f: Function): seq<Meta> {
    args + if Marked(f.attrs) && !HasPath(args, "js_name") then [JsNameArg(f.ident)] else []
  }

  /** The rewrite of a free function, whose JavaScript name can only join the macro's own arguments. */
  method ExpandFn(args: Option<seq<Meta>>, f: Function) returns (r: Result<Function, Error>)
    ensures r.Ok? <==> AcceptedFn(args, f)
    ensures r.Ok? ==> r.value == Function(Renamed(f.ident, f.attrs), f.generic,
                                          [WasmBindgenAttr(FnArgs(args.value, f))] + Redecorated(f.attrs))
    ensures r.Err? ==> r.error == if args.None? then BadArguments else if f.generic then GenericItem
                                  else if CarriesBindgen(f.attrs) then LeftoverBindgen
                                  else MarkerError(f.ident, f.attrs).value
  {
    if args.None? {
      return Err(BadArguments);
    }
    if f.generic {
      return Err(GenericItem);
    }
    if CarriesBindgen(f.attrs) {
      return Err(LeftoverBindgen);
    }
    var renamed, attrs, ident := ApplyWasmOnly(f.attrs, f.ident);
    if renamed.Err? {
      return Err(renamed.error);
    }
    var forwarded := args.value;
    if renamed.value.Some? && !HasPath(forwarded, "js_name") {
      forwarded := forwarded + [JsNameArg(renamed.value.value)];
    }
    assert forwarded == FnArgs(args.value, f);
    r := Ok(Function(ident, f.generic, [WasmBindgenAttr(forwarded)] + attrs));
  }
}
