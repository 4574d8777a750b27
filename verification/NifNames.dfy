/** Names of symbols and types in the serialized form, and their readers. */
module NifNames {
  import opened Decimal

  const FIELD_MARKER := "`f"
  const PKG_MARKER := "`pkg"
  const BACKEND_MARKER := "@bk"
  const SYS_SUFFIX := "@sys"

  datatype ParsedSymName = ParsedSymName(name: string, suffix: string, count: nat)

  /** Some module suffix under which a name reads back: not empty, without a dot, and
      not starting with a digit. */
  predicate SuffixOk(suffix: string)
  {
    suffix != "" && '.' !in suffix && !IsDigit(suffix[0])
  }

  /** The largest index in 1..i that holds a dot, or 0. */
  function DotBelow(s: string, i: int): (d: nat)
    requires i < |s|
    ensures d == 0 || (0 < d <= i && s[d] == '.')
    ensures forall k | d < k <= i :: 0 < k ==> s[k] != '.'
    decreases i
  {
    if i <= 0 then 0 else if s[i] == '.' then i else DotBelow(s, i - 1)
  }

  function ParseName(s: string): ParsedSymName
  {
    var i := DotBelow(s, |s| - 2);
    if i == 0 then ParsedSymName(s, "", 0)
    else if IsDigit(s[i + 1]) then ParsedSymName(s[..i], "", DigitsValue(s, i + 1, 0))
    else
      var b := DotBelow(s, i - 1);
      ParsedSymName(s[..b], s[i + 1..], DigitsValue(s, b + 1, 0))
  }

  method ParseSymName(s: string) returns (r: ParsedSymName)
    ensures r == ParseName(s)
  {
    var i := |s| - 2;
    while i > 0
      invariant i < |s|
      invariant DotBelow(s, i) == DotBelow(s, |s| - 2)
    {
      if s[i] == '.' {
        if IsDigit(s[i + 1]) {
          var _, count := ReadDigits(s, i + 2, DigitValue(s[i + 1]));
          return ParsedSymName(s[..i], "", count);
        } else {
          var b := i - 1;
          while b > 0 && s[b] != '.'
            invariant 0 <= b < i
            invariant DotBelow(s, b) == DotBelow(s, i - 1)
          {
            b := b - 1;
          }
          var _, count := ReadDigits(s, b + 1, 0);
          return ParsedSymName(s[..b], s[i + 1..], count);
        }
      }
      i := i - 1;
    }
    return ParsedSymName(s, "", 0);
  }

  function LocalName(ident: string, count: nat): string
  {
    ident + "." + Numeral(count)
  }

  function GlobalForm(ident: string, count: nat, suffix: string): string
  {
    LocalName(ident, count) + "." + suffix
  }

  lemma DotBelowIs(s: string, i: int, d: int)
    requires 0 < d <= i < |s| && s[d] == '.'
    requires forall k | d < k <= i :: s[k] != '.'
    ensures DotBelow(s, i) == d
  {
  }

  /** The local form reads back exactly when the identifier is not empty; dots inside
      the identifier do no harm. */
  lemma LocalNameReadsBack(ident: string, count: nat)
    ensures ParseName(LocalName(ident, count)) == ParsedSymName(ident, "", count) <==> ident != ""
  {
    var s, d := LocalName(ident, count), |ident|;
    assert s[d] == '.';
    forall k | d < k < |s| ensures IsDigit(s[k]) {
      assert s[k] == Numeral(count)[k - d - 1];
    }
    if ident != "" {
      DotBelowIs(s, |s| - 2, d);
      assert s[..d] == ident;
      assert s[d + 1..d + 1 + |Numeral(count)|] == Numeral(count);
      NumeralReadsBack(s, d + 1, count);
    } else {
      assert DotBelow(s, |s| - 2) == 0;
    }
  }

  lemma DottedParts(a: string, b: string, c: string)
    ensures var s, d, i := a + "." + b + "." + c, |a|, |a| + 1 + |b|;
      && |s| == i + 1 + |c|
      && s[..d] == a && s[d] == '.' && s[d + 1..i] == b && s[i] == '.' && s[i + 1..] == c
  {
  }

  lemma GlobalFormDots(ident: string, count: nat, suffix: string)
    requires suffix != "" && '.' !in suffix
    ensures var s, d := GlobalForm(ident, count, suffix), |ident|;
      var i := d + 1 + |Numeral(count)|;
      |s| == i + 1 + |suffix| && DotBelow(s, |s| - 2) == i && DotBelow(s, i - 1) == d
  {
    hide Numeral, DigitsValue;
    var num := Numeral(count);
    var s, d, i := GlobalForm(ident, count, suffix), |ident|, |ident| + 1 + |num|;
    DottedParts(ident, num, suffix);
    forall k | i < k < |s| ensures s[k] != '.' {
      assert s[k] == s[i + 1..][k - i - 1];
    }
    forall k | d < k < i ensures s[k] != '.' {
      assert s[k] == s[d + 1..i][k - d - 1];
      assert IsDigit(num[k - d - 1]);
    }
    DotBelowIs(s, |s| - 2, i);
    if d > 0 { DotBelowIs(s, i - 1, d); }
  }

  /** The global form reads back exactly when the suffix does not start with a digit,
      for every identifier, empty or dotted. */
  lemma GlobalFormReadsBack(ident: string, count: nat, suffix: string)
    requires suffix != "" && '.' !in suffix
    ensures ParseName(GlobalForm(ident, count, suffix)) == ParsedSymName(ident, suffix, count)
       <==> SuffixOk(suffix)
  {
    GlobalFormDots(ident, count, suffix);
    DottedParts(ident, Numeral(count), suffix);
    if !IsDigit(suffix[0]) {
      NumeralReadsBack(GlobalForm(ident, count, suffix), |ident| + 1, count);
    }
  }

  // ---------- symbol names ----------

  datatype NameKind = FieldName | PackageName | PlainName

  /** What a symbol's serialized name is made of. `item` is the id of a symbol minted by
      the backend, `position` the position of a field. */
  datatype SymIdent = SymIdent(kind: NameKind, ident: string, disamb: nat,
                               home: nat, item: nat, position: nat, backend: bool)

  /** The module suffixes, with the registration of a suffix as its inverse. */
  ghost predicate Registry(modname: nat -> string, register: string -> nat)
  {
    forall m :: SuffixOk(modname(m)) && modname(m)[0] != '@' && !EndsWith(modname(m), BACKEND_MARKER)
             && register(modname(m)) == m
  }

  predicate EndsWith(s: string, tail: string)
  {
    |tail| <= |s| && s[|s| - |tail|..] == tail
  }

  function Chop(s: string, tail: string): string
    requires EndsWith(s, tail)
  {
    s[..|s| - |tail|]
  }

  function ToNifSymName(sym: SymIdent, current: nat, modname: nat -> string): string
  {
    if sym.kind.FieldName? then LocalName(sym.ident + FIELD_MARKER, sym.position)
    else if sym.backend then GlobalForm(sym.ident, sym.item, modname(current) + BACKEND_MARKER)
    else if sym.kind.PackageName? then GlobalForm(sym.ident + PKG_MARKER, sym.disamb, modname(current))
    else GlobalForm(sym.ident, sym.disamb, modname(sym.home))
  }

  predicate IsFieldNifName(name: string)
  {
    var sn := ParseName(name);
    sn.suffix == "" && EndsWith(sn.name, FIELD_MARKER)
  }

  function StubKindAndName(raw: string): (NameKind, string)
  {
    if EndsWith(raw, PKG_MARKER) then (PackageName, Chop(raw, PKG_MARKER))
    else if EndsWith(raw, FIELD_MARKER) then (FieldName, Chop(raw, FIELD_MARKER))
    else (PlainName, raw)
  }

  function StripBkSuffix(raw: string): (bool, string)
  {
    if EndsWith(raw, BACKEND_MARKER) then (true, Chop(raw, BACKEND_MARKER)) else (false, raw)
  }

  /** The stub that the loader makes for a global name: the clean name, the marker's
      kind, and the module that the suffix registers as; `item` is freshly minted. */
  function StubOf(key: string, item: nat, register: string -> nat): SymIdent
  {
    var sn := ParseName(key);
    var (backend, suffix) := StripBkSuffix(sn.suffix);
    var (kind, ident) := StubKindAndName(sn.name);
    SymIdent(kind, ident, sn.count, register(suffix), item, 0, backend)
  }

  function GlobalName(sym: SymIdent, modname: nat -> string): string
  {
    LocalName(sym.ident + (if sym.kind.PackageName? then PKG_MARKER else ""), sym.disamb)
      + "." + modname(sym.home) + (if sym.backend then BACKEND_MARKER else "")
  }

  lemma EndsWithAppend(a: string, tail: string)
    ensures EndsWith(a + tail, tail) && Chop(a + tail, tail) == a
  {
    assert (a + tail)[|a|..] == tail;
  }

  lemma TailChars(s: string, tail: string)
    ensures EndsWith(s, tail) ==> forall k | 0 <= k < |tail| :: s[|s| - |tail| + k] == tail[k]
  {
    if EndsWith(s, tail) {
      forall k | 0 <= k < |tail| ensures s[|s| - |tail| + k] == tail[k] {
        assert s[|s| - |tail|..][k] == s[|s| - |tail| + k];
      }
    }
  }

  /** Does the identifier end in a marker of its own? */
  predicate EndsInMarker(ident: string) { EndsWith(ident, PKG_MARKER) || EndsWith(ident, FIELD_MARKER) }

  lemma MarkersTell(ident: string)
    ensures StubKindAndName(ident) == (PlainName, ident) <==> !EndsInMarker(ident)
    ensures StubKindAndName(ident + PKG_MARKER) == (PackageName, ident)
    ensures EndsWith(ident, PKG_MARKER) ==> Chop(ident, PKG_MARKER) + PKG_MARKER == ident
  {
    EndsWithAppend(ident, PKG_MARKER);
  }

  lemma BackendSuffixOk(suffix: string)
    requires SuffixOk(suffix)
    ensures SuffixOk(suffix + BACKEND_MARKER)
    ensures StripBkSuffix(suffix + BACKEND_MARKER) == (true, suffix)
  {
    EndsWithAppend(suffix, BACKEND_MARKER);
  }

  /** The parts of a symbol's name: the identifier with its marker, a number, and the suffix
      of a module, or none for a field. */
  function MarkedIdent(sym: SymIdent): string
  {
    match sym.kind
    case FieldName => sym.ident + FIELD_MARKER
    case PackageName => sym.ident + PKG_MARKER
    case PlainName => sym.ident
  }

  function NameCount(sym: SymIdent): nat
  {
    if sym.kind.FieldName? then sym.position else if sym.backend then sym.item else sym.disamb
  }

  /** The module that a symbol is named after. */
  function NameHome(sym: SymIdent, current: nat): nat
  {
    if sym.backend || sym.kind.PackageName? then current else sym.home
  }

  function NameSuffix(sym: SymIdent, current: nat, modname: nat -> string): string
  {
    if sym.kind.FieldName? then ""
    else if sym.backend then modname(current) + BACKEND_MARKER
    else modname(NameHome(sym, current))
  }

  /** The parser finds these parts in the name, for every identifier. */
  lemma SymNameParses(sym: SymIdent, current: nat, modname: nat -> string, register: string -> nat)
    requires Registry(modname, register) && (sym.backend ==> sym.kind.PlainName?)
    ensures ParseName(ToNifSymName(sym, current, modname))
         == ParsedSymName(MarkedIdent(sym), NameSuffix(sym, current, modname), NameCount(sym))
    ensures !sym.kind.FieldName? ==>
      ToNifSymName(sym, current, modname) == GlobalForm(MarkedIdent(sym), NameCount(sym), NameSuffix(sym, current, modname))
  {
    var home := NameHome(sym, current);
    assert SuffixOk(modname(home));
    BackendSuffixOk(modname(home));
    if sym.kind.FieldName? {
      LocalNameReadsBack(MarkedIdent(sym), sym.position);
    } else {
      GlobalFormReadsBack(MarkedIdent(sym), NameCount(sym), NameSuffix(sym, current, modname));
    }
  }

  lemma SuffixTellsHome(sym: SymIdent, current: nat, modname: nat -> string, register: string -> nat)
    requires Registry(modname, register) && !sym.kind.FieldName?
    ensures var suffix := NameSuffix(sym, current, modname);
      StripBkSuffix(suffix) == (sym.backend, modname(NameHome(sym, current))) && suffix != ""
  {
    var home := NameHome(sym, current);
    assert SuffixOk(modname(home));
    BackendSuffixOk(modname(home));
  }

  /** The reader of a global name finds the identifier, its kind, the number and the module
      that the writer put there, if and only if the identifier of a symbol without a marker
      does not end in one. */
  lemma SymNameReadsBack(sym: SymIdent, current: nat, item: nat, modname: nat -> string, register: string -> nat)
    requires Registry(modname, register)
    requires !sym.kind.FieldName? && (sym.backend ==> sym.kind.PlainName?)
    ensures StubOf(ToNifSymName(sym, current, modname), item, register)
         == SymIdent(sym.kind, sym.ident, if sym.backend then sym.item else sym.disamb,
                     if sym.backend || sym.kind.PackageName? then current else sym.home,
                     item, 0, sym.backend)
       <==> (sym.kind.PlainName? ==> !EndsInMarker(sym.ident))
  {
    SymNameParses(sym, current, modname, register);
    SuffixTellsHome(sym, current, modname, register);
    MarkersTell(sym.ident);
  }

  /** The loader looks a stub up again by the name it rebuilds. That name is the key the stub
      was made from, if and only if the identifier of a symbol without a marker does not end
      in that of fields. */
  lemma StubRebuildsKey(sym: SymIdent, current: nat, item: nat, modname: nat -> string, register: string -> nat)
    requires Registry(modname, register)
    requires !sym.kind.FieldName? && (sym.backend ==> sym.kind.PlainName?)
    ensures var key := ToNifSymName(sym, current, modname);
      GlobalName(StubOf(key, item, register), modname) == key <==> (sym.kind.PlainName? ==> !EndsWith(sym.ident, FIELD_MARKER))
  {
    SymNameParses(sym, current, modname, register);
    SuffixTellsHome(sym, current, modname, register);
    MarkersTell(sym.ident);
    TwoMarkers(sym.ident);
    var key, suffix, count := ToNifSymName(sym, current, modname), NameSuffix(sym, current, modname), NameCount(sym);
    var stub := StubOf(key, item, register);
    var marked := stub.ident + (if stub.kind.PackageName? then PKG_MARKER else "");
    assert stub.ident + "" == stub.ident;
    assert GlobalName(stub, modname) == GlobalForm(marked, count, suffix) by { Regroup(marked, stub.disamb, modname(stub.home), stub.backend); }
    LongerForms(marked, MarkedIdent(sym), count, suffix);
  }

  lemma Regroup(ident: string, count: nat, suffix: string, backend: bool)
    ensures var mark := if backend then BACKEND_MARKER else "";
      LocalName(ident, count) + "." + suffix + mark == GlobalForm(ident, count, suffix + mark)
  {
  }

  lemma LongerForms(a: string, b: string, count: nat, suffix: string)
    ensures GlobalForm(a, count, suffix) == GlobalForm(b, count, suffix) ==> |a| == |b|
  {
  }

  lemma TwoMarkers(ident: string)
    ensures !(EndsWith(ident, PKG_MARKER) && EndsWith(ident, FIELD_MARKER))
  {
    TailChars(ident, PKG_MARKER);
    TailChars(ident, FIELD_MARKER);
    assert PKG_MARKER[3] == 'g' && FIELD_MARKER[1] == 'f';
  }

  /** The field test of the loader answers yes for exactly the names of fields. */
  lemma FieldNamesAreTold(sym: SymIdent, current: nat, modname: nat -> string, register: string -> nat)
    requires Registry(modname, register) && (sym.backend ==> sym.kind.PlainName?)
    ensures IsFieldNifName(ToNifSymName(sym, current, modname)) <==> sym.kind.FieldName?
  {
    SymNameParses(sym, current, modname, register);
    if sym.kind.FieldName? {
      EndsWithAppend(sym.ident, FIELD_MARKER);
    } else {
      SuffixTellsHome(sym, current, modname, register);
    }
  }

  /** Two symbols have one name if and only if they agree in the identifier with its marker,
      the number, and whether and where they are at home. */
  lemma SymNamesEqual(a: SymIdent, b: SymIdent, current: nat, modname: nat -> string, register: string -> nat)
    requires Registry(modname, register) && (a.backend ==> a.kind.PlainName?) && (b.backend ==> b.kind.PlainName?)
    ensures ToNifSymName(a, current, modname) == ToNifSymName(b, current, modname) <==>
      && MarkedIdent(a) == MarkedIdent(b) && NameCount(a) == NameCount(b)
      && (a.kind.FieldName? <==> b.kind.FieldName?)
      && (!a.kind.FieldName? ==> a.backend == b.backend && NameHome(a, current) == NameHome(b, current))
  {
    SymNameParses(a, current, modname, register);
    SymNameParses(b, current, modname, register);
    if !a.kind.FieldName? { SuffixTellsHome(a, current, modname, register); }
    if !b.kind.FieldName? { SuffixTellsHome(b, current, modname, register); }
  }

  /** Two symbols that a writer names alike agree in everything the name is made of, unless an
      identifier ends in the marker of packages. */
  lemma SymNamesInjective(a: SymIdent, b: SymIdent, current: nat, modname: nat -> string, register: string -> nat)
    requires Registry(modname, register) && (a.backend ==> a.kind.PlainName?) && (b.backend ==> b.kind.PlainName?)
    requires a.kind.PlainName? ==> !EndsWith(a.ident, PKG_MARKER)
    requires b.kind.PlainName? ==> !EndsWith(b.ident, PKG_MARKER)
    requires ToNifSymName(a, current, modname) == ToNifSymName(b, current, modname)
    ensures a.kind == b.kind && a.ident == b.ident
    ensures a.kind.FieldName? ==> a.position == b.position
    ensures !a.kind.FieldName? ==> a.backend == b.backend
    ensures !a.kind.FieldName? && a.backend ==> a.item == b.item
    ensures !a.kind.FieldName? && !a.backend ==> a.disamb == b.disamb
    ensures a.kind.PlainName? && !a.backend ==> a.home == b.home
  {
    SymNamesEqual(a, b, current, modname, register);
    EndsWithAppend(a.ident, PKG_MARKER);
    EndsWithAppend(b.ident, PKG_MARKER);
    if a.kind == b.kind {
      assert MarkedIdent(a)[..|a.ident|] == a.ident && MarkedIdent(b)[..|b.ident|] == b.ident;
    }
  }

  /** Why the marker of packages matters: a symbol whose identifier ends in it has the name of
      a package. */
  lemma PackageNameTaken(package: SymIdent, current: nat, modname: nat -> string)
    requires package.kind.PackageName? && !package.backend
    ensures var sym := SymIdent(PlainName, package.ident + PKG_MARKER, package.disamb, current, 0, 0, false);
      ToNifSymName(sym, current, modname) == ToNifSymName(package, current, modname)
  {
  }

  predicate StartsLikeType(ident: string) { |ident| >= 2 && ident[..2] == "`t" }

  /** The identifiers that a template expansion makes end in no marker, and neither do those
      without a backtick; they do not start like the name of a type. */
  lemma TemplateIdents(ident: string, instance: nat)
    ensures var made := ident + "`gensym" + Numeral(instance);
      !EndsInMarker(made) && (StartsLikeType(made) ==> StartsLikeType(ident))
    ensures '`' !in ident ==> !EndsInMarker(ident) && !StartsLikeType(ident)
  {
    var made := ident + "`gensym" + Numeral(instance);
    assert IsDigit(made[|made| - 1]) by { assert made[|made| - 1] == Numeral(instance)[|Numeral(instance)| - 1]; }
    TailChars(made, PKG_MARKER);
    TailChars(made, FIELD_MARKER);
    TailChars(ident, PKG_MARKER);
    TailChars(ident, FIELD_MARKER);
    assert PKG_MARKER[0] == '`' && FIELD_MARKER[0] == '`' && PKG_MARKER[3] == 'g' && FIELD_MARKER[1] == 'f';
    if StartsLikeType(made) {
      assert made[0] == '`' && made[1] == 't' && made[|ident|] == '`' && made[|ident| + 1] == 'g';
      if |ident| >= 2 { assert made[..2] == ident[..2]; }
    }
  }

  // ---------- type names ----------

  /** A type's identity: a module, or none for the singletons of the system. */
  datatype TypeIdent = TypeIdent(kind: nat, home: int, item: nat, backend: bool)

  function TypeName(kind: nat, item: nat, suffix: string): string
  {
    "`t" + Numeral(kind) + "." + Numeral(item) + "." + suffix
  }

  function ToNifTypeName(t: TypeIdent, current: nat, modname: nat -> string): string
  {
    TypeName(t.kind, t.item,
             if t.backend then modname(current) + BACKEND_MARKER
             else if t.home < 0 then SYS_SUFFIX
             else modname(t.home))
  }

  function SkipDot(s: string, i: nat): (j: nat)
    requires i <= |s|
    ensures i <= j <= |s|
  {
    if i < |s| && s[i] == '.' then i + 1 else i
  }

  function ParseTypeName(name: string): (nat, nat, string)
    requires |name| >= 2
  {
    var item := SkipDot(name, DigitsEnd(name, 2));
    (DigitsValue(name, 2, 0), DigitsValue(name, item, 0), name[SkipDot(name, DigitsEnd(name, item))..])
  }

  function TypeStubOf(name: string, register: string -> nat): TypeIdent
    requires |name| >= 2
  {
    var (kind, item, suffix) := ParseTypeName(name);
    if suffix == SYS_SUFFIX then TypeIdent(kind, -1, item, false)
    else
      var (backend, origin) := StripBkSuffix(suffix);
      TypeIdent(kind, register(origin), item, backend)
  }

  method ReadTypeName(name: string, register: string -> nat) returns (r: TypeIdent)
    requires |name| >= 2
    ensures r == TypeStubOf(name, register)
  {
    var i, kind := ReadDigits(name, 2, 0);
    if i < |name| && name[i] == '.' { i := i + 1; }
    var e, item := ReadDigits(name, i, 0);
    if e < |name| && name[e] == '.' { e := e + 1; }
    var suffix := name[e..];
    if suffix == SYS_SUFFIX {
      return TypeIdent(kind, -1, item, false);
    }
    var (backend, origin) := StripBkSuffix(suffix);
    r := TypeIdent(kind, register(origin), item, backend);
  }

  lemma TypeNameReadsBack(kind: nat, item: nat, suffix: string)
    ensures ParseTypeName(TypeName(kind, item, suffix)) == (kind, item, suffix)
  {
    var s := TypeName(kind, item, suffix);
    var d := 2 + |Numeral(kind)|;
    var e := d + 1 + |Numeral(item)|;
    assert s[2..d] == Numeral(kind) && s[d] == '.';
    assert s[d + 1..e] == Numeral(item) && s[e] == '.' && s[e + 1..] == suffix;
    NumeralReadsBack(s, 2, kind);
    NumeralReadsBack(s, d + 1, item);
  }

  /** A type's name gives back its kind, item and home. A backend type comes home to the
      module that was written; all system singletons share the home -1. */
  lemma TypeStubReadsBack(t: TypeIdent, current: nat, modname: nat -> string, register: string -> nat)
    requires Registry(modname, register)
    ensures TypeStubOf(ToNifTypeName(t, current, modname), register)
         == TypeIdent(t.kind,
                      if t.backend then current else if t.home < 0 then -1 else t.home,
                      t.item, t.backend)
  {
    assert SuffixOk(modname(current));
    BackendSuffixOk(modname(current));
    var marked := modname(current) + BACKEND_MARKER;
    assert marked[|marked| - 1] == 'k' && SYS_SUFFIX[|SYS_SUFFIX| - 1] == 's';
    if t.backend {
      TypeNameReadsBack(t.kind, t.item, marked);
    } else if t.home < 0 {
      TypeNameReadsBack(t.kind, t.item, SYS_SUFFIX);
    } else {
      var _ := SuffixOk(modname(t.home));
      TypeNameReadsBack(t.kind, t.item, modname(t.home));
    }
  }

  // ---------- the texts of names ----------

  /** How names are spelled: fields with their position, packages and backend symbols with a
      mark, and types by kind and item. */
  lemma NamesSpelled(ident: string, n: nat, kind: nat, home: nat, modname: nat -> string)
    ensures var m, i := modname(home), Numeral(n);
      && ToNifSymName(SymIdent(FieldName, ident, 0, home, 0, n, false), home, modname) == ident + "`f." + i
      && ToNifSymName(SymIdent(PackageName, ident, n, home, 0, 0, false), home, modname) == ident + "`pkg." + i + "." + m
      && ToNifSymName(SymIdent(PlainName, ident, 0, home, n, 0, true), home, modname) == ident + "." + i + "." + m + "@bk"
      && ToNifSymName(SymIdent(PlainName, ident, n, home, 0, 0, false), home, modname) == ident + "." + i + "." + m
      && ToNifTypeName(TypeIdent(kind, home, n, false), home, modname) == "`t" + Numeral(kind) + "." + i + "." + m
      && ToNifTypeName(TypeIdent(kind, home, n, true), home, modname) == "`t" + Numeral(kind) + "." + i + "." + m + "@bk"
      && ToNifTypeName(TypeIdent(kind, -1, n, false), home, modname) == "`t" + Numeral(kind) + "." + i + ".@sys"
  {
    hide Numeral;
    assert ident + "`f" + "." == ident + "`f." && ident + "`pkg" + "." == ident + "`pkg.";
  }
}
