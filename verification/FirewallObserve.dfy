/** Reading the gate back from nft's JSON listing, and the backend that applies and checks a state:
    internal/dataplane/firewall.go. */
module FirewallObserve {
  import opened Base
  import opened Firewall

  /** A decoded JSON value; of an object only the members that the decoder looks at. */
  datatype Json =
    | Text(text: string) | Number(value: real) | List(items: seq<Json>) | Null
    | Object(
        val: Option<Json>, elem: Option<Json>, mapping: Option<Json>, key: Option<Json>, data: Option<Json>,
        concat: Option<Json>)

  /** strconv.ParseUint(text, 0, 32); None on error. */
  type Parse = string -> Option<u32>

  function StringElement(j: Json): string {
    match j
    case Text(s) => s
    case Object(Some(Text(s)), _, _, _, _, _) => s
    case _ => ""
  }

  function NumberElement(j: Json, parse: Parse): Option<u32> {
    var v := if j.Object? then (if j.val.Some? then j.val.value else Null) else j;
    match v
    case Text(t) => if parse(t).Some? && parse(t).value > 0 then parse(t) else None
    case Number(x) =>
      if 1.0 <= x <= MAX_U32 as real && x == x.Floor as real then Some(x.Floor) else None
    case _ => None
  }

  function PairElement(a: Json, b: Json, parse: Parse): Option<(string, u32)> {
    var name, mark := StringElement(a), NumberElement(b, parse);
    if mark.Some? && name != "" then Some((name, mark.value)) else None
  }

  function ListElement(j: Json, parse: Parse): Option<(string, u32)> {
    if j.List? && |j.items| == 2 then PairElement(j.items[0], j.items[1], parse) else None
  }

  function MarkElement(j: Json, parse: Parse): Option<(string, u32)> {
    if j.Object? then
      if j.elem.Some? && MarkElement(j.elem.value, parse).Some? then MarkElement(j.elem.value, parse)
      else if j.mapping.Some? && MarkElement(j.mapping.value, parse).Some? then MarkElement(j.mapping.value, parse)
      else
        var key := if j.val.Some? then j.val else j.key;
        if key.Some? && j.data.Some? then PairElement(key.value, j.data.value, parse) else None
    else ListElement(j, parse)
  }

  function ContextElement(j: Json, parse: Parse): Option<(string, u32)> {
    if j.Object? then
      if j.val.Some? && ContextElement(j.val.value, parse).Some? then ContextElement(j.val.value, parse)
      else if j.elem.Some? && ContextElement(j.elem.value, parse).Some? then ContextElement(j.elem.value, parse)
      else if j.concat.Some? then ListElement(j.concat.value, parse)
      else None
    else ListElement(j, parse)
  }

  // ----- what a listing shows -----

  ghost predicate ShowsName(j: Json, n: string) {
    j == Text(n) || (j.Object? && j.val == Some(Text(n)))
  }

  ghost predicate PlainNumber(j: Json, n: u32, parse: Parse) {
    j == Number(n as real) || (j.Text? && parse(j.text) == Some(n))
  }

  ghost predicate ShowsNumber(j: Json, n: u32, parse: Parse) {
    PlainNumber(j, n, parse) || (j.Object? && j.val.Some? && PlainNumber(j.val.value, n, parse))
  }

  ghost predicate ShowsPair(j: Json, p: (string, u32), parse: Parse) {
    j.List? && |j.items| == 2 && ShowsName(j.items[0], p.0) && ShowsNumber(j.items[1], p.1, parse)
  }

  /** A concatenation, bare, as a `concat` member, or under any number of `val` and `elem` wrappers. */
  ghost predicate ShowsContext(j: Json, p: (string, u32), parse: Parse) {
    if j.Object? then
      if j.val.Some? then j.elem.None? && j.concat.None? && ShowsContext(j.val.value, p, parse)
      else if j.elem.Some? then j.concat.None? && ShowsContext(j.elem.value, p, parse)
      else j.concat.Some? && ShowsPair(j.concat.value, p, parse)
    else ShowsPair(j, p, parse)
  }

  /** A map entry: a pair, a key with data, or either under any number of `elem` and `map` wrappers. */
  ghost predicate ShowsMark(j: Json, p: (string, u32), parse: Parse) {
    if j.Object? then
      if j.elem.Some? then j.mapping.None? && j.data.None? && ShowsMark(j.elem.value, p, parse)
      else if j.mapping.Some? then j.data.None? && ShowsMark(j.mapping.value, p, parse)
      else
        && j.data.Some? && ShowsNumber(j.data.value, p.1, parse)
        && (if j.val.Some? then ShowsName(j.val.value, p.0) else j.key.Some? && ShowsName(j.key.value, p.0))
    else ShowsPair(j, p, parse)
  }

  // Collections are shown in any order, each element once.

  ghost predicate ShowsNames(elems: seq<Json>, s: set<string>) {
    |elems| == |s| && forall x | x in s :: exists i :: 0 <= i < |elems| && ShowsName(elems[i], x)
  }

  ghost predicate ShowsNumbers(elems: seq<Json>, s: set<u32>, parse: Parse) {
    |elems| == |s| && forall x | x in s :: exists i :: 0 <= i < |elems| && ShowsNumber(elems[i], x, parse)
  }

  ghost predicate ShowsContexts(elems: seq<Json>, s: set<(string, u32)>, parse: Parse) {
    |elems| == |s| && forall x | x in s :: exists i :: 0 <= i < |elems| && ShowsContext(elems[i], x, parse)
  }

  ghost predicate ShowsMarks(elems: seq<Json>, m: map<string, u32>, parse: Parse) {
    |elems| == |m| && forall n | n in m :: exists i :: 0 <= i < |elems| && ShowsMark(elems[i], (n, m[n]), parse)
  }

  lemma NumberIsRead(j: Json, n: u32, parse: Parse)
    requires ShowsNumber(j, n, parse)
    ensures NumberElement(j, parse) == if n > 0 then Some(n) else None
  {}

  /** What the element decoders make of a pair: nothing where the name is empty or the mark zero. */
  function Usable(p: (string, u32)): Option<(string, u32)> {
    if p.0 != "" && p.1 > 0 then Some(p) else None
  }

  lemma PairIsRead(a: Json, b: Json, p: (string, u32), parse: Parse)
    requires ShowsName(a, p.0) && ShowsNumber(b, p.1, parse)
    ensures PairElement(a, b, parse) == Usable(p)
  {}

  lemma {:induction false} ContextIsRead(j: Json, p: (string, u32), parse: Parse)
    requires ShowsContext(j, p, parse)
    ensures ContextElement(j, parse) == Usable(p)
  {
    if j.Object? && j.val.Some? {
      ContextIsRead(j.val.value, p, parse);
    } else if j.Object? && j.elem.Some? {
      ContextIsRead(j.elem.value, p, parse);
    } else {
      var pair := if j.Object? then j.concat.value else j;
      PairIsRead(pair.items[0], pair.items[1], p, parse);
    }
  }

  lemma {:induction false} MarkIsRead(j: Json, p: (string, u32), parse: Parse)
    requires ShowsMark(j, p, parse)
    ensures MarkElement(j, parse) == Usable(p)
  {
    if !j.Object? {
      PairIsRead(j.items[0], j.items[1], p, parse);
    } else if j.elem.Some? {
      MarkIsRead(j.elem.value, p, parse);
    } else if j.mapping.Some? {
      MarkIsRead(j.mapping.value, p, parse);
    } else {
      PairIsRead(if j.val.Some? then j.val.value else j.key.value, j.data.value, p, parse);
    }
  }

  lemma Singleton<T>(s: set<T>) returns (x: T)
    requires |s| == 1
    ensures s == {x}
  {
    x :| x in s;
    assert |s - {x}| == 0;
  }

  lemma NamesRead(elems: seq<Json>, s: set<string>, n: string)
    requires ShowsNames(elems, s)
    ensures elems == [] <==> s == {}
    ensures |elems| == 1 && StringElement(elems[0]) == n <==> s == {n}
  {}

  lemma NumbersRead(elems: seq<Json>, s: set<u32>, n: u32, parse: Parse)
    requires ShowsNumbers(elems, s, parse) && n > 0
    ensures elems == [] <==> s == {}
    ensures |elems| == 1 && NumberElement(elems[0], parse) == Some(n) <==> s == {n}
  {}

  lemma ContextsRead(elems: seq<Json>, s: set<(string, u32)>, p: (string, u32), parse: Parse)
    requires ShowsContexts(elems, s, parse) && Usable(p).Some?
    ensures elems == [] <==> s == {}
    ensures |elems| == 1 && ContextElement(elems[0], parse) == Some(p) <==> s == {p}
  {
    hide ShowsContext, ContextElement;
    if |elems| == 1 {
      var x := Singleton(s);
      assert x in s;
      ContextIsRead(elems[0], x, parse);
    }
  }

  // ----- decoding -----

  datatype Name = TunSet | InterfaceSet | ContextSet | MarkMap | GenerationSet | RouteGenerationSet | OtherName

  /** An entry of the listing; `owned` when family and table are the gateway's own. */
  datatype Entry = NotCollection | Collection(owned: bool, isMap: bool, name: Name, elem: seq<Json>)

  type Document = seq<Entry>

  /** The elements under a name: the last collection of that name counts. */
  function Listed(doc: Document, name: Name): Option<seq<Json>> {
    if doc == [] then None
    else
      var e := doc[|doc| - 1];
      if e.Collection? && e.owned && e.name == name then Some(e.elem) else Listed(doc[..|doc| - 1], name)
  }

  predicate Misfit(e: Entry) { e.Collection? && e.owned && e.name == MarkMap && !e.isMap && e.elem != [] }

  predicate Misfits(doc: Document) { exists i :: 0 <= i < |doc| && Misfit(doc[i]) }

  /** The six element lists. */
  datatype Elements = Elements(tun: seq<Json>, interfaces: seq<Json>, contexts: seq<Json>, marks: seq<Json>,
      generations: seq<Json>, routeGenerations: seq<Json>)

  predicate IsComplete(doc: Document) {
    && Listed(doc, TunSet).Some? && Listed(doc, InterfaceSet).Some? && Listed(doc, ContextSet).Some?
    && Listed(doc, MarkMap).Some? && Listed(doc, GenerationSet).Some? && Listed(doc, RouteGenerationSet).Some?
  }

  function ElementsOf(doc: Document): Elements
    requires IsComplete(doc)
  {
    Elements(Listed(doc, TunSet).value, Listed(doc, InterfaceSet).value, Listed(doc, ContextSet).value,
             Listed(doc, MarkMap).value, Listed(doc, GenerationSet).value, Listed(doc, RouteGenerationSet).value)
  }

  /** The first loop of decodePathState. */
  method Gather(doc: Document) returns (r: Option<Elements>)
    ensures r.Some? <==> !Misfits(doc) && IsComplete(doc)
    ensures r.Some? ==> r.value == ElementsOf(doc)
  {
    var tun, interfaces, contexts, marks, generations, routes: Option<seq<Json>> := None, None, None, None, None, None;
    for i := 0 to |doc|
      invariant tun == Listed(doc[..i], TunSet) && interfaces == Listed(doc[..i], InterfaceSet)
      invariant contexts == Listed(doc[..i], ContextSet) && marks == Listed(doc[..i], MarkMap)
      invariant generations == Listed(doc[..i], GenerationSet) && routes == Listed(doc[..i], RouteGenerationSet)
      invariant forall j :: 0 <= j < i ==> !Misfit(doc[j])
    {
      assert doc[..i + 1][..i] == doc[..i];
      var e := doc[i];
      if e.NotCollection? || !e.owned { continue; }
      match e.name {
        case TunSet => { tun := Some(e.elem); }
        case InterfaceSet => { interfaces := Some(e.elem); }
        case ContextSet => { contexts := Some(e.elem); }
        case MarkMap => {
          if !e.isMap && |e.elem| != 0 { assert Misfit(doc[i]); return None; }
          marks := Some(e.elem);
        }
        case GenerationSet => { generations := Some(e.elem); }
        case RouteGenerationSet => { routes := Some(e.elem); }
        case OtherName => {}
      }
    }
    assert doc[..|doc|] == doc;
    if tun.None? || interfaces.None? || contexts.None? || marks.None? || generations.None? || routes.None? {
      return None;
    }
    r := Some(Elements(tun.value, interfaces.value, contexts.value, marks.value, generations.value, routes.value));
  }

  /** The loop over the mark entries: all carry the expected mark, and together they name the two ingress sides. */
  predicate MarksAgree(marks: seq<Json>, lan: string, mark: u32, parse: Parse)
    requires |marks| == 2
  {
    var a, b := MarkElement(marks[0], parse), MarkElement(marks[1], parse);
    && a.Some? && b.Some? && a.value.1 == mark && b.value.1 == mark
    && a.value.0 != b.value.0 && lan in {a.value.0, b.value.0} && WG in {a.value.0, b.value.0}
  }

  method CheckMarks(marks: seq<Json>, lan: string, mark: u32, parse: Parse) returns (ok: bool)
    requires |marks| == 2 && mark != 0
    ensures ok <==> MarksAgree(marks, lan, mark, parse)
  {
    var markMap: map<string, u32> := map[];
    for i := 0 to |marks|
      invariant forall k :: 0 <= k < i ==>
        MarkElement(marks[k], parse).Some? && MarkElement(marks[k], parse).value.1 == mark
      invariant forall n | n in markMap :: markMap[n] == mark
      invariant i == 0 ==> markMap == map[]
      invariant i == 1 ==> markMap.Keys == {MarkElement(marks[0], parse).value.0}
      invariant i == 2 ==> markMap.Keys == {MarkElement(marks[0], parse).value.0, MarkElement(marks[1], parse).value.0}
    {
      var e := MarkElement(marks[i], parse);
      if e.None? || e.value.1 != mark { return false; }
      markMap := markMap[e.value.0 := e.value.1];
    }
    ghost var a, b := MarkElement(marks[0], parse).value.0, MarkElement(marks[1], parse).value.0;
    assert |markMap| == |markMap.Keys|;
    assert a == b ==> markMap.Keys == {a};
    ok := |markMap| == 2 && lan in markMap && WG in markMap;
  }

  /** What the decoder makes of the six lists. */
  function Interpret(e: Elements, tun: string, lan: string, parse: Parse): Option<PathState> {
    if e == Elements([], [], [], [], [], []) then Some(BLOCKED)
    else if |e.generations| != 1 then None
    else
      var generation := NumberElement(e.generations[0], parse);
      if generation.None? then None
      else if |e.tun| == 1 && StringElement(e.tun[0]) == tun then
        if e.interfaces != [] || e.contexts != [] || e.marks != [] || e.routeGenerations != [] then None
        else Some(PathState(true, Tun, generation.value, "", 0, 0))
      else if e.tun != [] || |e.interfaces| != 1 || |e.contexts| != 1 || |e.marks| != 2
        || |e.routeGenerations| != 1 then None
      else
        var name, context, route := StringElement(e.interfaces[0]), ContextElement(e.contexts[0], parse),
            NumberElement(e.routeGenerations[0], parse);
        if context.None? || !ValidName(name) || context.value.0 != name
          || !MarksAgree(e.marks, lan, context.value.1, parse) || route.None? then None
        else Some(PathState(true, Direct, generation.value, name, context.value.1, route.value))
  }

  lemma TwoKeys(m: map<string, u32>, a: string, b: string, mark: u32)
    requires |m| == 2 && a != b && a in m && b in m && m[a] == mark && m[b] == mark
    ensures m == map[a := mark, b := mark]
  {
    assert |m.Keys - {a} - {b}| == 0;
    assert m.Keys == {a, b};
  }

  lemma MarksMeanMap(marks: seq<Json>, m: map<string, u32>, lan: string, mark: u32, parse: Parse)
    requires ShowsMarks(marks, m, parse) && lan != WG && |marks| == 2 && MarksAgree(marks, lan, mark, parse)
    ensures m == map[lan := mark, WG := mark]
  {
    hide ShowsMark, MarkElement;
    var x :| x in m;
    assert |m.Keys - {x}| == 1;
    var y :| y in m.Keys - {x};
    var i :| 0 <= i < 2 && ShowsMark(marks[i], (x, m[x]), parse);
    var j :| 0 <= j < 2 && ShowsMark(marks[j], (y, m[y]), parse);
    MarkIsRead(marks[i], (x, m[x]), parse);
    MarkIsRead(marks[j], (y, m[y]), parse);
    TwoKeys(m, lan, WG, mark);
  }

  lemma MapMeansMarks(marks: seq<Json>, m: map<string, u32>, lan: string, mark: u32, parse: Parse)
    requires ShowsMarks(marks, m, parse) && m == map[lan := mark, WG := mark]
    requires lan != WG && lan != "" && mark != 0
    ensures |marks| == 2 && MarksAgree(marks, lan, mark, parse)
  {
    hide ShowsMark, MarkElement;
    assert m.Keys == {lan, WG};
    assert lan in m && WG in m;
    var i :| 0 <= i < |marks| && ShowsMark(marks[i], (lan, m[lan]), parse);
    var j :| 0 <= j < |marks| && ShowsMark(marks[j], (WG, m[WG]), parse);
    MarkIsRead(marks[i], (lan, mark), parse);
    MarkIsRead(marks[j], (WG, mark), parse);
  }

  ghost predicate Presents(e: Elements, g: Gate, parse: Parse) {
    && ShowsNames(e.tun, g.tun) && ShowsNames(e.interfaces, g.interfaces)
    && ShowsContexts(e.contexts, g.contexts, parse) && ShowsMarks(e.marks, g.marks, parse)
    && ShowsNumbers(e.generations, g.generations, parse) && ShowsNumbers(e.routeGenerations, g.routeGenerations, parse)
  }

  lemma NothingShown(e: Elements, g: Gate, parse: Parse)
    requires Presents(e, g, parse)
    ensures (e.tun == [] <==> g.tun == {}) && (e.interfaces == [] <==> g.interfaces == {})
    ensures (e.contexts == [] <==> g.contexts == {})
    ensures (e.marks == [] <==> g.marks == map[]) && (e.generations == [] <==> g.generations == {})
    ensures e.routeGenerations == [] <==> g.routeGenerations == {}
  {}

  lemma ReadsTun(e: Elements, g: Gate, tun: string, lan: string, parse: Parse, n: u32)
    requires Presents(e, g, parse) && n > 0
    ensures Interpret(e, tun, lan, parse) == Some(PathState(true, Tun, n, "", 0, 0))
      <==> g == Gate({tun}, {}, {}, map[], {n}, {})
  {
    hide ShowsNames, ShowsContexts, ShowsMarks, ShowsNumbers, ValidName, MarksAgree;
    NothingShown(e, g, parse);
    NamesRead(e.tun, g.tun, tun);
    NumbersRead(e.generations, g.generations, n, parse);
  }

  lemma ReadsDirect(e: Elements, g: Gate, tun: string, lan: string, parse: Parse, s: PathState)
    requires Presents(e, g, parse) && lan != WG && Renderable(s, lan) && s.active && s.mode == Direct
    ensures Interpret(e, tun, lan, parse) == Some(s) <==> g == GateOf(s, tun, lan)
  {
    hide ShowsNames, ShowsContexts, ShowsMarks, ShowsNumbers, MarksAgree;
    assert s.interface != "" && lan != "";
    hide ValidName;
    NothingShown(e, g, parse);
    NamesRead(e.interfaces, g.interfaces, s.interface);
    NumbersRead(e.generations, g.generations, s.generation, parse);
    NumbersRead(e.routeGenerations, g.routeGenerations, s.routeGeneration, parse);
    ContextsRead(e.contexts, g.contexts, (s.interface, s.mark), parse);
    if Interpret(e, tun, lan, parse) == Some(s) {
      MarksMeanMap(e.marks, g.marks, lan, s.mark, parse);
    }
    if g == GateOf(s, tun, lan) {
      MapMeansMarks(e.marks, g.marks, lan, s.mark, parse);
    }
  }

  lemma ReadIsRenderable(e: Elements, tun: string, lan: string, parse: Parse)
    requires ValidName(lan)
    ensures Interpret(e, tun, lan, parse).Some? ==> Renderable(Interpret(e, tun, lan, parse).value, lan)
  {
    hide MarksAgree;
    if |e.contexts| == 1 && ContextElement(e.contexts[0], parse).Some? {
      ContextHasMark(e.contexts[0], parse);
    }
  }

  lemma {:induction false} ContextHasMark(j: Json, parse: Parse)
    ensures ContextElement(j, parse).Some? ==> ContextElement(j, parse).value.1 > 0
  {
    if j.Object? && j.val.Some? { ContextHasMark(j.val.value, parse); }
    if j.Object? && j.elem.Some? { ContextHasMark(j.elem.value, parse); }
  }

  /** The decoder reads a state exactly when the gate is the one that the state means. */
  lemma ReadsExactly(e: Elements, g: Gate, tun: string, lan: string, parse: Parse, s: PathState)
    requires Presents(e, g, parse) && ValidName(lan) && lan != WG
    ensures Interpret(e, tun, lan, parse) == Some(s) <==> g == GateOf(s, tun, lan) && Renderable(s, lan)
  {
    hide Presents, ValidName;
    ReadIsRenderable(e, tun, lan, parse);
    if Renderable(s, lan) {
      if !s.active {
        NothingShown(e, g, parse);
      } else if s.mode == Tun {
        ReadsTun(e, g, tun, lan, parse, s.generation);
      } else {
        ReadsDirect(e, g, tun, lan, parse, s);
      }
    }
  }

  /** No state is read from a table whose TUN and direct gates are both open, whatever the LAN is called. */
  lemma NeverBothOpen(e: Elements, g: Gate, tun: string, lan: string, parse: Parse)
    requires Presents(e, g, parse) && Interpret(e, tun, lan, parse).Some?
    ensures g.tun == {} || (g.interfaces == {} && g.contexts == {} && g.marks == map[] && g.routeGenerations == {})
  {}

  /** With the LAN called wg-ingress a direct gate has one mark entry, and no listing of it is accepted. */
  lemma IngressLanIsRefused(e: Elements, g: Gate, tun: string, parse: Parse, s: PathState)
    requires Presents(e, g, parse) && Renderable(s, WG) && s.active && s.mode == Direct && g == GateOf(s, tun, WG)
    ensures |g.marks| == 1 && Interpret(e, tun, WG, parse) == None
  {}

  method DecodePathState(doc: Option<Document>, tun: string, lan: string, parse: Parse) returns (r: Option<PathState>)
    ensures r.Some? ==> ValidName(tun) && ValidName(lan) && doc.Some? && !Misfits(doc.value) && IsComplete(doc.value)
    ensures ValidName(tun) && ValidName(lan) && doc.Some? && !Misfits(doc.value) && IsComplete(doc.value) ==>
        r == Interpret(ElementsOf(doc.value), tun, lan, parse)
  {
    hide Misfits, IsComplete, MarksAgree, ElementsOf;
    if !ValidName(tun) || !ValidName(lan) || doc.None? { return None; }
    hide ValidName;
    var gathered := Gather(doc.value);
    if gathered.None? { return None; }
    var e := gathered.value;
    if |e.tun| == 0 && |e.interfaces| == 0 && |e.contexts| == 0 && |e.marks| == 0 && |e.generations| == 0
      && |e.routeGenerations| == 0 {
      return Some(BLOCKED);
    }
    if |e.generations| != 1 { return None; }
    var generation := NumberElement(e.generations[0], parse);
    if generation.None? { return None; }
    if |e.tun| == 1 && StringElement(e.tun[0]) == tun {
      if |e.interfaces| != 0 || |e.contexts| != 0 || |e.marks| != 0 || |e.routeGenerations| != 0 { return None; }
      return Some(PathState(true, Tun, generation.value, "", 0, 0));
    }
    if |e.tun| != 0 || |e.interfaces| != 1 || |e.contexts| != 1 || |e.marks| != 2 || |e.routeGenerations| != 1 {
      return None;
    }
    var name := StringElement(e.interfaces[0]);
    var context := ContextElement(e.contexts[0], parse);
    if context.None? || !ValidName(name) || context.value.0 != name { return None; }
    ContextHasMark(e.contexts[0], parse);
    var agree := CheckMarks(e.marks, lan, context.value.1, parse);
    if !agree { return None; }
    var route := NumberElement(e.routeGenerations[0], parse);
    if route.None? { return None; }
    r := Some(PathState(true, Direct, generation.value, name, context.value.1, route.value));
  }

  // ----- the backend -----

  method Enumerate<T(==)>(s: set<T>) returns (q: seq<T>)
    ensures |q| == |s| && forall x :: x in s <==> x in q
  {
    q := [];
    var rest := s;
    while rest != {}
      invariant rest <= s && |q| + |rest| == |s|
      invariant forall x :: x in s <==> x in rest || x in q
      decreases |rest|
    {
      var x :| x in rest;
      rest := rest - {x};
      q := q + [x];
    }
  }

  method ListNames(s: set<string>) returns (elems: seq<Json>)
    ensures ShowsNames(elems, s)
  {
    var q := Enumerate(s);
    elems := seq(|q|, i requires 0 <= i < |q| => Text(q[i]));
    forall x | x in s ensures exists i :: 0 <= i < |elems| && ShowsName(elems[i], x) {
      var i :| 0 <= i < |q| && q[i] == x;
      assert ShowsName(elems[i], x);
    }
  }

  method ListNumbers(s: set<u32>, parse: Parse) returns (elems: seq<Json>)
    ensures ShowsNumbers(elems, s, parse)
  {
    var q := Enumerate(s);
    elems := seq(|q|, i requires 0 <= i < |q| => Number(q[i] as real));
    forall x | x in s ensures exists i :: 0 <= i < |elems| && ShowsNumber(elems[i], x, parse) {
      var i :| 0 <= i < |q| && q[i] == x;
      assert ShowsNumber(elems[i], x, parse);
    }
  }

  function Pair(p: (string, u32)): Json { List([Text(p.0), Number(p.1 as real)]) }

  method ListContexts(s: set<(string, u32)>, parse: Parse) returns (elems: seq<Json>)
    ensures ShowsContexts(elems, s, parse)
  {
    var q := Enumerate(s);
    elems := seq(|q|, i requires 0 <= i < |q| => Pair(q[i]));
    forall x | x in s ensures exists i :: 0 <= i < |elems| && ShowsContext(elems[i], x, parse) {
      var i :| 0 <= i < |q| && q[i] == x;
      assert ShowsContext(elems[i], x, parse);
    }
  }

  method ListMarks(m: map<string, u32>, parse: Parse) returns (elems: seq<Json>)
    ensures ShowsMarks(elems, m, parse)
  {
    var q := Enumerate(m.Keys);
    elems := seq(|q|, i requires 0 <= i < |q| && q[i] in m => Pair((q[i], m[q[i]])));
    forall n | n in m ensures exists i :: 0 <= i < |elems| && ShowsMark(elems[i], (n, m[n]), parse) {
      var i :| 0 <= i < |q| && q[i] == n;
      assert ShowsMark(elems[i], (n, m[n]), parse);
    }
  }

  ghost predicate DocumentShows(doc: Document, g: Gate, parse: Parse) {
    !Misfits(doc) && IsComplete(doc) && Presents(ElementsOf(doc), g, parse)
  }

  /** Stands for nft's listing of the table: callers know no more of it than that it shows the gate. */
  method ListTable(g: Gate, parse: Parse) returns (doc: Document)
    ensures DocumentShows(doc, g, parse)
  {
    hide ShowsNames, ShowsNumbers, ShowsContexts, ShowsMarks;
    var tun := ListNames(g.tun);
    var interfaces := ListNames(g.interfaces);
    var contexts := ListContexts(g.contexts, parse);
    var marks := ListMarks(g.marks, parse);
    var generations := ListNumbers(g.generations, parse);
    var routes := ListNumbers(g.routeGenerations, parse);
    hide Listed;
    var a, b, c := Collection(true, false, TunSet, tun), Collection(true, false, InterfaceSet, interfaces),
        Collection(true, false, ContextSet, contexts);
    var d, e, f := Collection(true, true, MarkMap, marks), Collection(true, false, GenerationSet, generations),
        Collection(true, false, RouteGenerationSet, routes);
    doc := [] + [a] + [b] + [c] + [d] + [e] + [f];
    forall n: Name ensures Listed(doc, n) == (
        if n == f.name then Some(routes) else if n == e.name then Some(generations) else if n == d.name then Some(marks)
        else if n == c.name then Some(contexts) else if n == b.name then Some(interfaces)
          else if n == a.name then Some(tun) else Listed([], n))
    {
      ListedLast([], a, n);
      ListedLast([] + [a], b, n);
      ListedLast([] + [a] + [b], c, n);
      ListedLast([] + [a] + [b] + [c], d, n);
      ListedLast([] + [a] + [b] + [c] + [d], e, n);
      ListedLast([] + [a] + [b] + [c] + [d] + [e], f, n);
    }
    assert ElementsOf(doc) == Elements(tun, interfaces, contexts, marks, generations, routes);
  }

  lemma ListedLast(doc: Document, e: Entry, n: Name)
    requires e.Collection? && e.owned
    ensures Listed(doc + [e], n) == if n == e.name then Some(e.elem) else Listed(doc, n)
  {}

  /** A direct state with the LAN called wg-ingress is the one that is never confirmed. */
  predicate Confirmable(s: PathState, lan: string) { !(s.active && s.mode == Direct && lan == WG) }

  lemma ConfirmedExactly(e: Elements, g: Gate, tun: string, lan: string, parse: Parse, s: PathState)
    requires Presents(e, g, parse) && ValidName(lan) && Renderable(s, lan) && g == GateOf(s, tun, lan)
    ensures Interpret(e, tun, lan, parse) == Some(s) <==> Confirmable(s, lan)
  {
    hide Presents, ValidName;
    if !Confirmable(s, lan) {
      IngressLanIsRefused(e, g, tun, parse, s);
    } else if s.active && s.mode == Direct {
      ReadsExactly(e, g, tun, lan, parse, s);
    } else if s.active {
      ReadsTun(e, g, tun, lan, parse, s.generation);
    } else {
      NothingShown(e, g, parse);
    }
  }

  class Backend {
    var table: Table
    const tun: string
    const lan: string
    const steady: bool          // the nft tool does not fail

    constructor (table: Table, tun: string, lan: string, steady: bool)
      ensures this.table == table && this.tun == tun && this.lan == lan && this.steady == steady
    {
      this.table, this.tun, this.lan, this.steady := table, tun, lan, steady;
    }

    /** A run of the nft tool may fail. */
    method Exec() returns (ok: bool)
      ensures steady ==> ok
    {
      ok := *;
      if steady { ok := true; }
    }

    /** The table as read back; None when the tool or the decoder fails. */
    method ObservePath(parse: Parse) returns (r: Option<PathState>, ghost calm: bool)
      ensures r.Some? ==> ValidName(tun) && ValidName(lan)
      ensures r.Some? || (calm && ValidName(tun) && ValidName(lan)) ==>
          exists e :: Presents(e, table.gate, parse) && r == Interpret(e, tun, lan, parse)
      ensures steady ==> calm
    {
      hide Presents, ValidName, Interpret, Misfits, IsComplete, ElementsOf;
      r, calm := None, true;
      if !ValidName(tun) || !ValidName(lan) { return; }
      var ok := Exec();
      if !ok { calm := false; return; }
      var doc := ListTable(table.gate, parse);
      r := DecodePathState(Some(doc), tun, lan, parse);
    }

    /** Atomic over the whole table, and confirmed: success means that the gate is the desired one. */
    method Apply(desired: PathState, allowed: seq<string>, canon: Canon, parse: Parse)
      returns (ok: bool, ghost calm: bool)
      modifies `table
      ensures table == old(table) ||
          (table.gate == GateOf(desired, tun, lan)
              && (if desired.active then Canonical(allowed, canon, table.sources) else table.sources == {}))
      ensures ok ==> table.gate == GateOf(desired, tun, lan)
      ensures ok ==> if desired.active then Canonical(allowed, canon, table.sources) else table.sources == {}
      ensures ok ==> ValidName(tun) && ValidName(lan) && Renderable(desired, lan) && Confirmable(desired, lan)
      ensures calm && ValidName(tun) && ValidName(lan) && Renderable(desired, lan) && (desired.active ==>
        AllValid(allowed, canon)) ==>
          table.gate == GateOf(desired, tun, lan) && (ok <==> Confirmable(desired, lan))
      ensures steady ==> calm
    {
      hide Presents, ValidName, Interpret, Renderable, GateOf, Canonical, AllValid, Execute, Confirmable;
      ok, calm := false, true;
      if !ValidName(tun) || !ValidName(lan) { return; }
      var listed := Exec();      // the table is there and shows every integrity marker and the schema generation
      if !listed { calm := false; return; }
      var sources: seq<string> := [];
      if desired.active {
        var resolved := Exec();
        if !resolved { calm := false; return; }
        sources := allowed;
      }
      var payload := Render(desired, tun, lan, sources, canon);
      assert AllValid([], canon) by { NoneIsValid(canon); }
      if payload.None? { return; }
      var checked := Exec();
      if !checked { calm := false; return; }
      var next := Execute(table, payload.value);
      var ran := Exec();
      if !ran {
        // the tool can die before or after the kernel commits the transaction
        var committed := Exec();
        if committed { table := next.value; }
        calm := false;
        return;
      }
      table := next.value;
      var observed;
      observed, calm := ObservePath(parse);
      if observed.Some? || calm {
        ghost var e :| Presents(e, table.gate, parse) && observed == Interpret(e, tun, lan, parse);
        ConfirmedExactly(e, table.gate, tun, lan, parse, desired);
      }
      ok := observed == Some(desired);
    }

    method BlockPath(canon: Canon, parse: Parse) returns (ok: bool, ghost calm: bool)
      modifies `table
      ensures table == old(table) || table == Table(CLOSED, {})
      ensures ok ==> table == Table(CLOSED, {})
      ensures calm && ValidName(tun) && ValidName(lan) ==> ok
      ensures steady ==> calm
    {
      hide ValidName, Execute;
      ok, calm := Apply(BLOCKED, [], canon, parse);
    }

    method ActivatePath(generation: u32, allowed: seq<string>, canon: Canon, parse: Parse)
      returns (ok: bool, ghost calm: bool)
      modifies `table
      ensures generation == 0 ==> !ok && table == old(table)
      ensures ok ==>
        table.gate == Gate({tun}, {}, {}, map[], {generation}, {}) && Canonical(allowed, canon, table.sources)
      ensures calm && generation != 0 && ValidName(tun) && ValidName(lan) && AllValid(allowed, canon) ==> ok
      ensures steady ==> calm
    {
      hide ValidName, Execute, Canonical, AllValid;
      if generation == 0 { return false, true; }
      ok, calm := Apply(PathState(true, Tun, generation, "", 0, 0), allowed, canon, parse);
    }
  }

  lemma NoneIsValid(canon: Canon)
    ensures AllValid([], canon)
  {}
}
