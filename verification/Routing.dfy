/** The app's hash routing (web/src/routing.ts): the parser of a location hash and the
    printer that claims to be its inverse. */
module Routing {
  import opened Model

  datatype Route = Board | Ghost | Settings | Builtin(text: string)
  datatype Side = Side(session: string, car: string)
  datatype Parsed = Parsed(route: Route, car: Option<string>, a: Option<Side>, b: Option<Side>)

  /** The library calls: changing case (over all of Unicode), decoding one name or value of a
      query string, and percent-encoding. */
  datatype Library = Library(
    upper: string -> string, lower: string -> string, decode: string -> string, encode: string -> string)

  predicate Upper(c: char) {
    'A' <= c <= 'Z' || '0' <= c <= '9'
  }

  predicate Lower(c: char) {
    'a' <= c <= 'z' || '0' <= c <= '9'
  }

  predicate Printed(s: string) {
    forall c :: c in s ==> Upper(c) || Lower(c) || c == '-'
  }

  /** The characters a printed value is made of. */
  predicate Clean(s: string) {
    forall c :: c in s ==> Upper(c) || Lower(c) || c == '-' || c == ':'
  }

  /** `CAR_CODE` and `SESSION_SLUG`. */
  predicate Code(s: string) {
    2 <= |s| <= 4 && forall c :: c in s ==> Upper(c)
  }

  predicate Word(s: string) {
    s != "" && forall c :: c in s ==> Lower(c)
  }

  function IndexOf(s: string, c: char): (i: int)
    ensures -1 <= i < |s|
    ensures i < 0 ==> c !in s
    ensures i >= 0 ==> s[i] == c && c !in s[..i]
  {
    if s == "" then -1
    else if s[0] == c then 0
    else
      var i := IndexOf(s[1..], c);
      assert i >= 0 ==> s[..i + 1] == [s[0]] + s[1..][..i];
      if i < 0 then -1 else i + 1
  }

  predicate Slug(s: string)
    decreases |s|
  {
    var i := IndexOf(s, '-');
    if i < 0 then Word(s) else Word(s[..i]) && Slug(s[i + 1..])
  }

  /** What is used of them: each leaves plain text alone, and lower-casing leaves a bracket. */
  ghost predicate LeavesPlainText(lib: Library) {
    && (forall s :: Code(s) ==> lib.upper(s) == s)
    && (forall s :: Slug(s) || s == "" ==> lib.lower(s) == s)
    && (forall s :: '[' in s ==> '[' in lib.lower(s))
    && (forall s :: Clean(s) ==> lib.decode(s) == s)
    && (forall s :: Printed(s) ==> lib.encode(s) == s)
  }

  function Split(s: string, c: char): seq<string>
    decreases |s|
  {
    var i := IndexOf(s, c);
    if i < 0 then [s] else [s[..i]] + Split(s[i + 1..], c)
  }

  function Join(parts: seq<string>, c: char): string {
    if parts == [] then "" else if |parts| == 1 then parts[0] else parts[0] + [c] + Join(parts[1..], c)
  }

  // ------------------------------------------------------------------ the query string

  /** One `name=value` of section 5.1 of the WHATWG URL Standard. */
  function Pair(lib: Library, part: string): (string, string) {
    var i := IndexOf(part, '=');
    if i < 0 then (lib.decode(part), lib.decode("")) else (lib.decode(part[..i]), lib.decode(part[i + 1..]))
  }

  /** The first value of that name among the non-empty parts. */
  function Get(lib: Library, parts: seq<string>, name: string): Option<string> {
    if parts == [] then None
    else if parts[0] != "" && Pair(lib, parts[0]).0 == name then Some(Pair(lib, parts[0]).1)
    else Get(lib, parts[1..], name)
  }

  /** `URLSearchParams` drops one leading question mark. */
  function QueryParts(query: string): seq<string> {
    Split(if query != "" && query[0] == '?' then query[1..] else query, '&')
  }

  // ------------------------------------------------------------------ parseHash

  function ParseCode(lib: Library, value: Option<string>): Option<string> {
    if value.None? then None
    else
      var code := lib.upper(value.value);
      if Code(code) then Some(code) else None
  }

  function ParseSide(lib: Library, value: Option<string>): Option<Side> {
    if value.None? || IndexOf(value.value, ':') < 0 then None
    else
      var sep := IndexOf(value.value, ':');
      var session := lib.lower(value.value[..sep]);
      var car := ParseCode(lib, Some(value.value[sep + 1..]));
      if Slug(session) && car.Some? then Some(Side(session, car.value)) else None
  }

  const OBJECT_FUNCTION := "function Object() { [native code] }"
  const OBJECT_PROTOTYPE := "[object Object]"

  /** The list of routes, then the table of redirects. The table is an object literal, so it
      also answers the two lower-case names every object inherits. */
  function RouteOf(name: string): Route {
    if name == "board" then Board
    else if name == "ghost" then Ghost
    else if name == "settings" then Settings
    else if name == "compare" then Ghost
    else if name == "constructor" then Builtin(OBJECT_FUNCTION)
    else if name == "__proto__" then Builtin(OBJECT_PROTOTYPE)
    else Board
  }

  predicate InheritedName(name: string) {
    name == "constructor" || name == "__proto__"
  }

  function Raw(hash: string): string {
    if hash != "" && hash[0] == '#' then hash[1..] else hash
  }

  /** The route part of a hash, before its case is folded. */
  function NamePart(hash: string): string {
    var raw := Raw(hash);
    var q := IndexOf(raw, '?');
    if q < 0 then raw else raw[..q]
  }

  function QueryPart(hash: string): Option<string> {
    var raw := Raw(hash);
    var q := IndexOf(raw, '?');
    if q < 0 then None else Some(raw[q + 1..])
  }

  function ParseParams(lib: Library, route: Route, query: Option<string>): Parsed {
    if query.None? then Parsed(route, None, None, None)
    else
      var parts := QueryParts(query.value);
      Parsed(route, ParseCode(lib, Get(lib, parts, "car")),
             ParseSide(lib, Get(lib, parts, "a")), ParseSide(lib, Get(lib, parts, "b")))
  }

  function ParseHash(lib: Library, hash: string): Parsed {
    ParseParams(lib, RouteOf(lib.lower(NamePart(hash))), QueryPart(hash))
  }

  // ------------------------------------------------------------------ buildHash

  function SideText(lib: Library, side: Side): string {
    lib.encode(side.session) + ":" + lib.encode(side.car)
  }

  function Part(name: string, value: string): string {
    name + "=" + value
  }

  function Parts(lib: Library, p: Parsed): seq<string> {
    (if p.car.Some? && p.car.value != "" then [Part("car", lib.encode(p.car.value))] else [])
    + (if p.a.Some? && p.b.Some? then
         [Part("a", SideText(lib, p.a.value)), Part("b", SideText(lib, p.b.value))]
       else [])
  }

  function QueryText(lib: Library, p: Parsed): string {
    if Parts(lib, p) == [] then "" else "?" + Join(Parts(lib, p), '&')
  }

  function RouteText(route: Route): string {
    match route
    case Board => "board"
    case Ghost => "ghost"
    case Settings => "settings"
    case Builtin(text) => text
  }

  function BuildHash(lib: Library, p: Parsed): string {
    var query := QueryText(lib, p);
    if p.route == Board && query == "" then "#"
    else "#" + RouteText(p.route) + query
  }

  // ------------------------------------------------------------------ what is promised

  ghost predicate WellFormedSide(side: Option<Side>) {
    side.Some? ==> Slug(side.value.session) && Code(side.value.car)
  }

  ghost predicate WellFormed(p: Parsed) {
    && !p.route.Builtin?
    && (p.car.Some? ==> Code(p.car.value))
    && WellFormedSide(p.a) && WellFormedSide(p.b)
  }

  /** What a hash can carry of p: one overlay side alone is not a comparison. */
  function Kept(p: Parsed): Parsed {
    if p.a.Some? && p.b.Some? then p else p.(a := None, b := None)
  }

  lemma {:induction false} SlugIsPrinted(s: string)
    requires Slug(s)
    ensures Printed(s) && s != ""
    decreases |s|
  {
    var i := IndexOf(s, '-');
    if i >= 0 {
      SlugIsPrinted(s[i + 1..]);
      assert s == s[..i] + ['-'] + s[i + 1..];
    }
  }

  lemma {:induction false} IndexOfFirst(a: string, c: char, b: string)
    requires c !in a
    ensures IndexOf(a + [c] + b, c) == |a|
  {
    if a == "" {
      assert (a + [c] + b)[0] == c;
    } else {
      assert (a + [c] + b)[1..] == a[1..] + [c] + b;
      IndexOfFirst(a[1..], c, b);
    }
  }

  lemma SplitFirst(first: string, c: char, rest: string)
    requires c !in first
    ensures Split(first + [c] + rest, c) == [first] + Split(rest, c)
  {
    var s := first + [c] + rest;
    IndexOfFirst(first, c, rest);
    assert s[..|first|] == first && s[|first| + 1..] == rest;
  }

  /** Splitting takes a join apart again, when no part holds the separator. */
  lemma {:induction false} SplitJoin(parts: seq<string>, c: char)
    requires parts != [] && forall i :: 0 <= i < |parts| ==> c !in parts[i]
    ensures Split(Join(parts, c), c) == parts
  {
    if |parts| == 1 {
      assert parts == [parts[0]];
    } else {
      SplitFirst(parts[0], c, Join(parts[1..], c));
      SplitJoin(parts[1..], c);
      assert parts == [parts[0]] + parts[1..];
    }
  }

  /** Reading a printed `name=value` gives name and value back. */
  lemma PairReads(lib: Library, name: string, value: string)
    requires '=' !in name && lib.decode(name) == name && lib.decode(value) == value
    ensures Pair(lib, Part(name, value)) == (name, value)
  {
    IndexOfFirst(name, '=', value);
    var part := name + "=" + value;
    assert part[..|name|] == name && part[|name| + 1..] == value;
  }

  /** A side survives being printed and read. */
  lemma SideReads(lib: Library, side: Side)
    requires LeavesPlainText(lib) && WellFormedSide(Some(side))
    ensures SideText(lib, side) == side.session + ":" + side.car
    ensures ParseSide(lib, Some(SideText(lib, side))) == Some(side)
  {
    SlugIsPrinted(side.session);
    IndexOfFirst(side.session, ':', side.car);
    var text := side.session + ":" + side.car;
    assert text[..|side.session|] == side.session && text[|side.session| + 1..] == side.car;
  }

  lemma SideIsClean(lib: Library, side: Side)
    requires LeavesPlainText(lib) && WellFormedSide(Some(side))
    ensures Clean(SideText(lib, side))
  {
    SideReads(lib, side);
    SlugIsPrinted(side.session);
  }

  /** The parts of a printed query, spelled out. */
  function CarParts(p: Parsed): seq<string> {
    if p.car.Some? then [Part("car", p.car.value)] else []
  }

  function SideParts(lib: Library, p: Parsed): seq<string> {
    if p.a.Some? && p.b.Some? then [Part("a", SideText(lib, p.a.value)), Part("b", SideText(lib, p.b.value))] else []
  }

  lemma PartsAre(lib: Library, p: Parsed)
    requires LeavesPlainText(lib) && WellFormed(p)
    ensures Parts(lib, p) == CarParts(p) + SideParts(lib, p)
    ensures forall i :: 0 <= i < |Parts(lib, p)| ==>
                          '&' !in Parts(lib, p)[i] && Parts(lib, p)[i] != "" && Parts(lib, p)[i][0] != '?'
  {
    if p.a.Some? && p.b.Some? {
      SideIsClean(lib, p.a.value);
      SideIsClean(lib, p.b.value);
    }
    if p.car.Some? { assert Printed(p.car.value); }
  }

  /** A printed query splits into its own parts. */
  lemma QueryPartsRead(lib: Library, p: Parsed)
    requires LeavesPlainText(lib) && WellFormed(p) && Parts(lib, p) != []
    ensures QueryParts(Join(Parts(lib, p), '&')) == Parts(lib, p)
  {
    PartsAre(lib, p);
    SplitJoin(Parts(lib, p), '&');
  }

  lemma {:induction false} GetAppend(lib: Library, first: seq<string>, rest: seq<string>, name: string)
    ensures Get(lib, first + rest, name)
            == if Get(lib, first, name).Some? then Get(lib, first, name) else Get(lib, rest, name)
  {
    if first == [] {
      assert first + rest == rest;
    } else {
      assert (first + rest)[1..] == first[1..] + rest;
      GetAppend(lib, first[1..], rest, name);
    }
  }

  lemma GetOne(lib: Library, key: string, value: string, name: string)
    requires '=' !in key && lib.decode(key) == key && lib.decode(value) == value
    ensures Get(lib, [Part(key, value)], name) == if key == name then Some(value) else None
  {
    PairReads(lib, key, value);
    var parts := [Part(key, value)];
    assert Get(lib, parts[1..], name) == None;
  }

  lemma CarReads(lib: Library, p: Parsed, name: string)
    requires LeavesPlainText(lib) && WellFormed(p)
    ensures Get(lib, CarParts(p), name) == if name == "car" then p.car else None
  {
    if p.car.Some? {
      assert Clean(p.car.value) && Clean("car");
      GetOne(lib, "car", p.car.value, name);
    }
  }

  lemma GetTwo(lib: Library, key1: string, value1: string, key2: string, value2: string, name: string)
    requires '=' !in key1 && lib.decode(key1) == key1 && lib.decode(value1) == value1
    requires '=' !in key2 && lib.decode(key2) == key2 && lib.decode(value2) == value2
    ensures Get(lib, [Part(key1, value1), Part(key2, value2)], name)
         == if key1 == name then Some(value1) else if key2 == name then Some(value2) else None
  {
    GetOne(lib, key1, value1, name);
    GetOne(lib, key2, value2, name);
    GetAppend(lib, [Part(key1, value1)], [Part(key2, value2)], name);
    assert [Part(key1, value1)] + [Part(key2, value2)] == [Part(key1, value1), Part(key2, value2)];
  }

  lemma SidesRead(lib: Library, p: Parsed, name: string)
    requires LeavesPlainText(lib) && WellFormed(p) && p.a.Some? && p.b.Some?
    ensures Get(lib, SideParts(lib, p), name)
         == if name == "a" then Some(SideText(lib, p.a.value))
            else if name == "b" then Some(SideText(lib, p.b.value)) else None
  {
    var a, b := SideText(lib, p.a.value), SideText(lib, p.b.value);
    SideIsClean(lib, p.a.value);
    SideIsClean(lib, p.b.value);
    assert Clean("a") && Clean("b");
    GetTwo(lib, "a", a, "b", b, name);
  }

  /** Looking a name up in a printed query. */
  lemma PartsLookUp(lib: Library, p: Parsed, name: string)
    requires LeavesPlainText(lib) && WellFormed(p) && name != "a" && name != "b"
    ensures Get(lib, Parts(lib, p), name) == if name == "car" then p.car else None
  {
    PartsAre(lib, p);
    GetAppend(lib, CarParts(p), SideParts(lib, p), name);
    CarReads(lib, p, name);
    if p.a.Some? && p.b.Some? { SidesRead(lib, p, name); }
  }

  lemma SidesLookUp(lib: Library, p: Parsed, name: string)
    requires LeavesPlainText(lib) && WellFormed(p) && (name == "a" || name == "b")
    ensures var side := if name == "a" then Kept(p).a else Kept(p).b;
            Get(lib, Parts(lib, p), name) == if side.Some? then Some(SideText(lib, side.value)) else None
  {
    PartsAre(lib, p);
    GetAppend(lib, CarParts(p), SideParts(lib, p), name);
    CarReads(lib, p, name);
    if p.a.Some? && p.b.Some? { SidesRead(lib, p, name); }
  }

  /** The three look-ups `parseHash` makes. */
  lemma PartsRead(lib: Library, p: Parsed)
    requires LeavesPlainText(lib) && WellFormed(p)
    ensures ParseCode(lib, Get(lib, Parts(lib, p), "car")) == p.car
    ensures ParseSide(lib, Get(lib, Parts(lib, p), "a")) == Kept(p).a
    ensures ParseSide(lib, Get(lib, Parts(lib, p), "b")) == Kept(p).b
  {
    PartsLookUp(lib, p, "car");
    SidesLookUp(lib, p, "a");
    SidesLookUp(lib, p, "b");
    if p.a.Some? && p.b.Some? {
      SideReads(lib, p.a.value);
      SideReads(lib, p.b.value);
    }
  }

  /** A hash made of a route text and a printed query comes apart where it was put together. */
  lemma HashComesApart(lib: Library, text: string, p: Parsed)
    requires '?' !in text
    ensures NamePart("#" + text + QueryText(lib, p)) == text
    ensures QueryPart("#" + text + QueryText(lib, p))
            == if Parts(lib, p) == [] then None else Some(Join(Parts(lib, p), '&'))
  {
    var hash := "#" + text + QueryText(lib, p);
    assert hash[1..] == text + QueryText(lib, p);
    if Parts(lib, p) == [] {
      assert Raw(hash) == text;
    } else {
      var query := Join(Parts(lib, p), '&');
      assert Raw(hash) == text + "?" + query;
      IndexOfFirst(text, '?', query);
      assert Raw(hash)[..|text|] == text && Raw(hash)[|text| + 1..] == query;
    }
  }

  /** What `buildHash` prints after the name reads back as the selections it keeps. */
  lemma ParamsRead(lib: Library, route: Route, p: Parsed)
    requires LeavesPlainText(lib) && WellFormed(p)
    ensures ParseParams(lib, route, if Parts(lib, p) == [] then None else Some(Join(Parts(lib, p), '&')))
            == Kept(p).(route := route)
  {
    PartsRead(lib, p);
    if Parts(lib, p) != [] { QueryPartsRead(lib, p); }
  }

  lemma WordIsSlug(s: string)
    requires Word(s)
    ensures Slug(s) && '?' !in s
  {
    forall k | 0 <= k < |s| ensures s[k] != '-' { assert s[k] in s; }
  }

  lemma RouteTextReads(lib: Library, route: Route)
    requires LeavesPlainText(lib) && !route.Builtin?
    ensures '?' !in RouteText(route) && RouteText(route) != ""
    ensures RouteOf(lib.lower(RouteText(route))) == route
  {
    WordIsSlug(RouteText(route));
  }

  /** What a printed hash reads back as: everything but a lone overlay side. */
  lemma BuildThenParse(lib: Library, p: Parsed)
    requires LeavesPlainText(lib) && WellFormed(p)
    ensures ParseHash(lib, BuildHash(lib, p)) == Kept(p)
  {
    RouteTextReads(lib, p.route);
    ParamsRead(lib, p.route, p);
    if p.route == Board && QueryText(lib, p) == "" {
      assert Parts(lib, p) == [];
      assert Raw("#") == "" && NamePart("#") == "" && QueryPart("#") == None;
      assert lib.lower("") == "";
    } else {
      HashComesApart(lib, RouteText(p.route), p);
    }
  }

  /** Printing then reading gives the selection back exactly when it has both overlay sides or
      neither. */
  lemma RoundTrip(lib: Library, p: Parsed)
    requires LeavesPlainText(lib) && WellFormed(p)
    ensures ParseHash(lib, BuildHash(lib, p)) == p <==> (p.a.Some? <==> p.b.Some?)
  {
    BuildThenParse(lib, p);
  }

  lemma RouteIsBuiltin(name: string)
    ensures RouteOf(name).Builtin? <==> InheritedName(name)
  {
  }

  lemma ParamsAreWellFormed(lib: Library, route: Route, query: Option<string>)
    ensures ParseParams(lib, route, query).route == route
    ensures WellFormed(ParseParams(lib, route, query)) <==> !route.Builtin?
    ensures WellFormed(ParseParams(lib, route, query).(route := Board))
  {
  }

  /** Whatever is typed, what is read is well formed, but for the two names the redirect table
      inherits. */
  lemma ParseIsWellFormed(lib: Library, hash: string)
    ensures WellFormed(ParseHash(lib, hash)) <==> !InheritedName(lib.lower(NamePart(hash)))
    ensures WellFormed(ParseHash(lib, hash).(route := Board))
  {
    RouteIsBuiltin(lib.lower(NamePart(hash)));
    ParamsAreWellFormed(lib, RouteOf(lib.lower(NamePart(hash))), QueryPart(hash));
  }

  lemma BuildDropsTheSame(lib: Library, p: Parsed)
    ensures BuildHash(lib, Kept(p)) == BuildHash(lib, p)
  {
    assert Parts(lib, Kept(p)) == Parts(lib, p);
  }

  lemma BuiltinTexts(text: string)
    requires text == OBJECT_FUNCTION || text == OBJECT_PROTOTYPE
    ensures '?' !in text && '[' in text && text[0] != 'b'
  {
    if text == OBJECT_FUNCTION { assert text[20] == '['; } else { assert text[0] == '['; }
  }

  lemma BracketIsBoard(lib: Library, text: string)
    requires LeavesPlainText(lib) && '[' in text
    ensures RouteOf(lib.lower(text)) == Board
  {
    assert '[' in lib.lower(text);
  }

  /** A link built from an inherited name reads back as the board. */
  lemma BuiltinReadsAsBoard(lib: Library, p: Parsed)
    requires LeavesPlainText(lib) && WellFormed(p.(route := Board))
    requires p.route.Builtin? && '?' !in p.route.text && '[' in p.route.text
    ensures ParseHash(lib, BuildHash(lib, p)) == Kept(p.(route := Board))
  {
    var board := p.(route := Board);
    assert Parts(lib, p) == Parts(lib, board);
    HashComesApart(lib, p.route.text, board);
    BracketIsBoard(lib, p.route.text);
    ParamsRead(lib, Board, board);
  }

  lemma BuiltinIsNotStable(lib: Library, p: Parsed)
    requires LeavesPlainText(lib) && WellFormed(p.(route := Board))
    requires p.route.Builtin? && '?' !in p.route.text && '[' in p.route.text && p.route.text[0] != 'b'
    ensures BuildHash(lib, ParseHash(lib, BuildHash(lib, p))) != BuildHash(lib, p)
  {
    BuiltinReadsAsBoard(lib, p);
    BuildDropsTheSame(lib, p.(route := Board));
    assert BuildHash(lib, p)[1] == p.route.text[0];
  }

  /** Canonicalising a hash twice changes nothing more, for every string but those whose name
      is one of the two inherited ones. */
  lemma CanonicalFormIsStable(lib: Library, hash: string)
    requires LeavesPlainText(lib)
    ensures var once := BuildHash(lib, ParseHash(lib, hash));
            BuildHash(lib, ParseHash(lib, once)) == once <==> !InheritedName(lib.lower(NamePart(hash)))
  {
    var p := ParseHash(lib, hash);
    ParseIsWellFormed(lib, hash);
    if InheritedName(lib.lower(NamePart(hash))) {
      BuiltinTexts(p.route.text);
      BuiltinIsNotStable(lib, p);
    } else {
      BuildThenParse(lib, p);
      BuildDropsTheSame(lib, p);
    }
  }

  lemma PlainName(lib: Library, name: string)
    requires LeavesPlainText(lib) && Word(name)
    ensures ParseHash(lib, "#" + name) == Parsed(RouteOf(name), None, None, None)
  {
    WordIsSlug(name);
    assert ("#" + name)[1..] == name;
    assert Raw("#" + name) == name;
    assert IndexOf(name, '?') < 0;
  }

  lemma ConstructorIsAWord()
    ensures Word("constructor") && InheritedName("constructor")
  {
  }

  /** What an inherited word gives: no route at all. `#constructor` is such a link. */
  lemma InheritedNameIsNoRoute(lib: Library, name: string)
    requires LeavesPlainText(lib) && Word(name)
    ensures ParseHash(lib, "#" + name).route.Builtin? <==> InheritedName(name)
    ensures Word("constructor") && InheritedName("constructor")
  {
    PlainName(lib, name);
    RouteIsBuiltin(name);
    ConstructorIsAWord();
  }

  // ------------------------------------------------------------------ the shortest link

  predicate Ascii(s: string) {
    forall i :: 0 <= i < |s| ==> s[i] as int < 128
  }

  lemma AsciiSlice(s: string, i: nat, j: nat)
    requires i <= j <= |s| && Ascii(s)
    ensures Ascii(s[i..j]) && Ascii(s[i..]) && Ascii(s[..j])
  {
  }

  /** A fragment is serialised in ASCII. Reading such text never lengthens it: a character
      that folding could expand takes six of it to spell. */
  ghost predicate NeverLengthens(lib: Library) {
    && (forall s :: Ascii(s) ==> |lib.lower(s)| <= |s|)
    && (forall s :: Ascii(s) ==> |lib.decode(s)| <= |s|)
    && (forall s :: Ascii(s) ==> |lib.upper(lib.decode(s))| <= |s|)
    && (forall s, k :: Ascii(s) && 0 <= k < |lib.decode(s)| ==>
          |lib.lower(lib.decode(s)[..k])| + 1 + |lib.upper(lib.decode(s)[k + 1..])| <= |s|)
  }

  /** What a parameter takes in a query, its separator included. */
  function CarCost(car: Option<string>): nat {
    if car.Some? then 5 + |car.value| else 0
  }

  function SideCost(side: Option<Side>): nat {
    if side.Some? then 4 + |side.value.session| + |side.value.car| else 0
  }

  function Total(parts: seq<string>): nat {
    if parts == [] then 0 else |parts[0]| + 1 + Total(parts[1..])
  }

  ghost predicate AllAscii(parts: seq<string>) {
    forall i :: 0 <= i < |parts| ==> Ascii(parts[i])
  }

  lemma {:induction false} SplitTotal(s: string, c: char)
    ensures Total(Split(s, c)) == |s| + 1
    decreases |s|
  {
    var i := IndexOf(s, c);
    if i >= 0 {
      SplitTotal(s[i + 1..], c);
      assert ([s[..i]] + Split(s[i + 1..], c))[1..] == Split(s[i + 1..], c);
    }
  }

  lemma {:induction false} SplitAscii(s: string, c: char)
    requires Ascii(s)
    ensures AllAscii(Split(s, c))
    decreases |s|
  {
    var i := IndexOf(s, c);
    if i >= 0 {
      AsciiSlice(s, i + 1, i + 1);
      AsciiSlice(s, 0, i);
      SplitAscii(s[i + 1..], c);
    }
  }

  lemma {:induction false} JoinTotal(parts: seq<string>, c: char)
    requires parts != []
    ensures |Join(parts, c)| + 1 == Total(parts)
  {
    if |parts| > 1 { JoinTotal(parts[1..], c); }
  }

  lemma CarPartFits(lib: Library, part: string)
    requires NeverLengthens(lib) && Ascii(part) && Pair(lib, part).0 == "car"
    ensures CarCost(ParseCode(lib, Some(Pair(lib, part).1))) <= |part| + 1
  {
    var i := IndexOf(part, '=');
    if i < 0 {
      assert Ascii("");
    } else {
      AsciiSlice(part, i + 1, |part|);
      AsciiSlice(part, 0, i);
    }
  }

  lemma SidePartFits(lib: Library, part: string)
    requires NeverLengthens(lib) && Ascii(part) && |Pair(lib, part).0| == 1
    ensures SideCost(ParseSide(lib, Some(Pair(lib, part).1))) <= |part| + 1
  {
    var i := IndexOf(part, '=');
    if i < 0 {
      assert Ascii("");
    } else {
      AsciiSlice(part, i + 1, |part|);
      AsciiSlice(part, 0, i);
    }
  }

  function Cost(lib: Library, parts: seq<string>): nat {
    CarCost(ParseCode(lib, Get(lib, parts, "car")))
    + SideCost(ParseSide(lib, Get(lib, parts, "a")))
    + SideCost(ParseSide(lib, Get(lib, parts, "b")))
  }

  /** Whatever is read from a query, the query is long enough to spell it out plainly. */
  lemma {:induction false} CostFits(lib: Library, parts: seq<string>)
    requires NeverLengthens(lib) && AllAscii(parts)
    ensures Cost(lib, parts) <= Total(parts)
  {
    if parts != [] {
      CostFits(lib, parts[1..]);
      var name := Pair(lib, parts[0]).0;
      if name == "car" { CarPartFits(lib, parts[0]); }
      if name == "a" || name == "b" { SidePartFits(lib, parts[0]); }
    }
  }

  lemma SideTextLength(lib: Library, side: Side)
    requires LeavesPlainText(lib) && WellFormedSide(Some(side))
    ensures |SideText(lib, side)| == |side.session| + 1 + |side.car|
  {
    SideReads(lib, side);
  }

  lemma TotalOf(parts: seq<string>)
    requires |parts| <= 3
    ensures Total(parts) == (if |parts| > 0 then |parts[0]| + 1 else 0) + (if |parts| > 1 then |parts[1]| + 1 else 0)
                            + (if |parts| > 2 then |parts[2]| + 1 else 0)
  {
    if |parts| > 1 { TotalOf(parts[1..]); }
  }

  /** The printed query spends exactly what its parameters cost. */
  lemma PrintedCost(lib: Library, p: Parsed)
    requires LeavesPlainText(lib) && WellFormed(p)
    ensures |QueryText(lib, p)| == CarCost(p.car) + SideCost(Kept(p).a) + SideCost(Kept(p).b)
  {
    PartsAre(lib, p);
    if p.a.Some? && p.b.Some? {
      SideTextLength(lib, p.a.value);
      SideTextLength(lib, p.b.value);
    }
    var parts := CarParts(p) + SideParts(lib, p);
    TotalOf(parts);
    if parts != [] { JoinTotal(parts, '&'); }
  }

  lemma JoinAscii(parts: seq<string>)
    requires AllAscii(parts)
    ensures Ascii(Join(parts, '&'))
  {
    if |parts| > 1 {
      assert AllAscii(parts[1..]);
      JoinAscii(parts[1..]);
    }
  }

  lemma CleanIsAscii(s: string)
    requires Clean(s)
    ensures Ascii(s)
  {
    forall i | 0 <= i < |s| ensures s[i] as int < 128 { assert s[i] in s; }
  }

  lemma AsciiAppend(s: string, t: string)
    requires Ascii(s) && Ascii(t)
    ensures Ascii(s + t)
  {
  }

  lemma PartAscii(name: string, value: string)
    requires Clean(name) && Clean(value)
    ensures Ascii(Part(name, value))
  {
    CleanIsAscii(name);
    CleanIsAscii(value);
    AsciiAppend(name, "=");
    AsciiAppend(name + "=", value);
  }

  lemma PartsAscii(lib: Library, p: Parsed)
    requires LeavesPlainText(lib) && WellFormed(p)
    ensures AllAscii(Parts(lib, p))
  {
    PartsAre(lib, p);
    if p.car.Some? { PartAscii("car", p.car.value); }
    if p.a.Some? && p.b.Some? {
      SideIsClean(lib, p.a.value);
      SideIsClean(lib, p.b.value);
      PartAscii("a", SideText(lib, p.a.value));
      PartAscii("b", SideText(lib, p.b.value));
    }
  }

  lemma QueryIsAscii(lib: Library, p: Parsed)
    requires LeavesPlainText(lib) && WellFormed(p)
    ensures Ascii(QueryText(lib, p))
  {
    PartsAscii(lib, p);
    JoinAscii(Parts(lib, p));
    AsciiAppend("?", Join(Parts(lib, p), '&'));
  }

  lemma RouteIsAscii(route: Route)
    requires !route.Builtin?
    ensures Ascii("#" + RouteText(route)) && Ascii("#")
  {
    assert Clean(RouteText(route));
    CleanIsAscii(RouteText(route));
    AsciiAppend("#", RouteText(route));
  }

  lemma PrintedIsAscii(lib: Library, p: Parsed)
    requires LeavesPlainText(lib) && WellFormed(p)
    ensures Ascii("#" + QueryText(lib, p)) && Ascii(BuildHash(lib, p))
  {
    var query := QueryText(lib, p);
    QueryIsAscii(lib, p);
    RouteIsAscii(p.route);
    AsciiAppend("#", query);
    AsciiAppend("#" + RouteText(p.route), query);
  }

  /** A link: what a location's hash can be when there is one. */
  ghost predicate Link(h: string) {
    h != "" && h[0] == '#' && Ascii(h)
  }

  ghost predicate LinksTo(lib: Library, h: string, p: Parsed) {
    Link(h) && ParseHash(lib, h) == p
  }

  lemma LinkParts(h: string)
    requires Link(h)
    ensures Ascii(NamePart(h)) && (QueryPart(h).Some? ==> Ascii(QueryPart(h).value))
    ensures |h| == 1 + |NamePart(h)| + (if QueryPart(h).Some? then 1 + |QueryPart(h).value| else 0)
  {
    AsciiSlice(h, 1, |h|);
    var q := IndexOf(Raw(h), '?');
    if q >= 0 {
      AsciiSlice(Raw(h), q + 1, q + 1);
      AsciiSlice(Raw(h), 0, q);
    }
  }

  lemma QueryIsLongEnough(lib: Library, h: string, p: Parsed)
    requires NeverLengthens(lib) && LinksTo(lib, h, p)
    ensures CarCost(p.car) + SideCost(p.a) + SideCost(p.b)
         <= if QueryPart(h).Some? then 1 + |QueryPart(h).value| else 0
  {
    LinkParts(h);
    if QueryPart(h).Some? {
      var query := QueryPart(h).value;
      var rest := if query != "" && query[0] == '?' then query[1..] else query;
      if rest != query { AsciiSlice(query, 1, 1); }
      SplitTotal(rest, '&');
      SplitAscii(rest, '&');
      CostFits(lib, QueryParts(query));
    }
  }

  lemma NameIsLongEnough(lib: Library, h: string, p: Parsed)
    requires NeverLengthens(lib) && LinksTo(lib, h, p) && (p.route == Ghost || p.route == Settings)
    ensures |RouteText(p.route)| <= |NamePart(h)|
  {
    LinkParts(h);
  }

  lemma NamelessReads(lib: Library, p: Parsed)
    requires LeavesPlainText(lib) && WellFormed(p) && p.route == Board && Parts(lib, p) != []
    ensures ParseHash(lib, "#" + QueryText(lib, p)) == Kept(p)
  {
    ParamsRead(lib, Board, p);
    assert RouteOf("") == Board;
  }

  /** A board link may leave its name out. */
  lemma ShorterBoardLink(lib: Library, p: Parsed)
    requires LeavesPlainText(lib) && WellFormed(p) && p.route == Board && Parts(lib, p) != []
    ensures LinksTo(lib, "#" + QueryText(lib, p), ParseHash(lib, BuildHash(lib, p)))
    ensures |"#" + QueryText(lib, p)| < |BuildHash(lib, p)|
  {
    BuildThenParse(lib, p);
    NamelessReads(lib, p);
    PrintedIsAscii(lib, p);
  }

  /** Among the links that read back the same, the printed one is a shortest if and only if it
      is not a board link with a query: there the name could have been left out. */
  lemma ShortestIff(lib: Library, p: Parsed)
    requires LeavesPlainText(lib) && NeverLengthens(lib) && WellFormed(p)
    ensures Link(BuildHash(lib, p))
    ensures (forall h :: LinksTo(lib, h, ParseHash(lib, BuildHash(lib, p))) ==> |BuildHash(lib, p)| <= |h|)
            <==> p.route != Board || Parts(lib, p) == []
  {
    PrintedIsAscii(lib, p);
    BuildThenParse(lib, p);
    if p.route != Board || Parts(lib, p) == [] {
      forall h | LinksTo(lib, h, Kept(p)) ensures |BuildHash(lib, p)| <= |h| {
        LinkParts(h);
        QueryIsLongEnough(lib, h, Kept(p));
        PrintedCost(lib, p);
        if p.route != Board { NameIsLongEnough(lib, h, Kept(p)); }
      }
    } else {
      ShorterBoardLink(lib, p);
    }
  }

  /** Which view a hash opens, by its name in lower case: the overlay under its old name too. */
  lemma RouteIs(lib: Library, hash: string)
    ensures var name, route := lib.lower(NamePart(hash)), ParseHash(lib, hash).route;
            && (route == Ghost <==> name == "ghost" || name == "compare")
            && (route == Settings <==> name == "settings")
            && (route == Board <==> name !in {"ghost", "compare", "settings"} && !InheritedName(name))
  {
  }

  lemma NamePartOf(name: string, query: string)
    requires '?' !in name && (query != "" ==> query[0] == '?')
    ensures NamePart("#" + name + query) == name
    ensures QueryPart("#" + name + query) == if query == "" then None else Some(query[1..])
  {
    var raw := Raw("#" + name + query);
    assert raw == name + query;
    if query == "" {
      assert raw == name;
      assert '?' !in raw;
    } else {
      IndexOfFirst(name, '?', query[1..]);
      assert name + ['?'] + query[1..] == raw;
      assert raw[..|name|] == name && raw[|name| + 1..] == query[1..];
    }
  }

  lemma ParsedAs(lib: Library, name: string, query: string)
    requires '?' !in name && (query != "" ==> query[0] == '?')
    ensures ParseHash(lib, "#" + name + query)
            == ParseParams(lib, RouteOf(lib.lower(name)), if query == "" then None else Some(query[1..]))
  {
    NamePartOf(name, query);
  }

  /** Links to the retired view open the overlay that absorbed it, with the same selection. */
  lemma OldLinksStillOpen(lib: Library, query: string)
    requires lib.lower("compare") == "compare" && lib.lower("ghost") == "ghost"
    requires query != "" ==> query[0] == '?'
    ensures ParseHash(lib, "#" + "compare" + query) == ParseHash(lib, "#" + "ghost" + query)
    ensures ParseHash(lib, "#" + "compare" + query).route == Ghost
  {
    ParsedAs(lib, "compare", query);
    ParsedAs(lib, "ghost", query);
  }
}
