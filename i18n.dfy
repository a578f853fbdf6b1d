/** The server's message catalogue: looking up a dotted key in the
    dictionary of a locale, checking a locale name, and choosing the
    locale from an HTTP `Accept-Language` header. The two dictionaries are
    data and enter as a parameter. */
module I18n {
  import opened Base
  import opened Text

  datatype Locale = Pt | En

  /** The locale's name, as the `SupportedLocale` type spells it. */
  function LocaleName(l: Locale): (name: string)
    ensures |name| == 2
  {
    match l
    case Pt => "pt"
    case En => "en"
  }

  /** The values a dictionary holds: texts and nested objects; `Undefined`
      is what a lookup of a missing property gives. */
  datatype JsValue = Str(text: string) | Obj(fields: map<string, JsValue>) | Undefined

  /** The two dictionaries of the `locales` record. */
  datatype Catalogue = Catalogue(pt: JsValue, en: JsValue)

  function Dictionary(catalogue: Catalogue, l: Locale): JsValue {
    match l
    case Pt => catalogue.pt
    case En => catalogue.en
  }

  /** `value?.[k]`: the own property `k` of an object, `Undefined` for
      anything else. */
  function Get(value: JsValue, k: string): (r: JsValue)
    ensures !value.Obj? ==> r == Undefined
  {
    match value
    case Obj(fields) => if k in fields then fields[k] else Undefined
    case _ => Undefined
  }

  /** The value at the end of a path of property names. */
  function Lookup(value: JsValue, path: seq<string>): JsValue
    decreases |path|
  {
    if path == [] then value else Lookup(Get(value, path[0]), path[1..])
  }

  /** What `translate` returns: the text at the dotted path, else the key. */
  function Translation(catalogue: Catalogue, l: Locale, key: string): string {
    match Lookup(Dictionary(catalogue, l), Split(key, '.'))
    case Str(text) => text
    case _ => key
  }

  /** `translate`: the loop that walks the dictionary one key at a time. */
  method Translate(catalogue: Catalogue, l: Locale, key: string) returns (r: string)
    ensures r == Translation(catalogue, l, key)
  {
    var keys := Split(key, '.');
    var value := Dictionary(catalogue, l);
    var i := 0;
    while i < |keys|
      invariant 0 <= i <= |keys|
      invariant Lookup(value, keys[i..]) == Lookup(Dictionary(catalogue, l), keys)
    {
      assert keys[i..][1..] == keys[i + 1..];
      value := Get(value, keys[i]);
      i := i + 1;
    }
    assert keys[i..] == [];
    if value.Str? {
      r := value.text;
    } else {
      r := key;
    }
  }

  /** Walking a path in two stages ends where walking it at once does. */
  lemma {:induction false} LookupAppend(value: JsValue, a: seq<string>, b: seq<string>)
    ensures Lookup(value, a + b) == Lookup(Lookup(value, a), b)
    decreases |a|
  {
    if a == [] {
      assert a + b == b;
    } else {
      assert (a + b)[1..] == a[1..] + b;
      LookupAppend(Get(value, a[0]), a[1..], b);
    }
  }

  /** Once a lookup misses, every longer path misses too. */
  lemma {:induction false} LookupUndefined(path: seq<string>)
    ensures Lookup(Undefined, path) == Undefined
    decreases |path|
  {
    if path != [] {
      LookupUndefined(path[1..]);
    }
  }

  /** A text stored at a path is what the dotted key of that path
      translates to. */
  lemma TranslationFound(catalogue: Catalogue, l: Locale, path: seq<string>, text: string)
    requires |path| >= 1 && forall k :: 0 <= k < |path| ==> '.' !in path[k]
    requires Lookup(Dictionary(catalogue, l), path) == Str(text)
    ensures Translation(catalogue, l, Join(path, '.')) == text
  {
    SplitJoin(path, '.');
  }

  /** A key whose path does not end at a text translates to itself; in
      particular, a key with a missing prefix does. */
  lemma TranslationFallsBack(catalogue: Catalogue, l: Locale, prefix: seq<string>, rest: seq<string>)
    requires |prefix| >= 1 && forall k :: 0 <= k < |prefix| ==> '.' !in prefix[k]
    requires |rest| >= 1 && forall k :: 0 <= k < |rest| ==> '.' !in rest[k]
    requires Lookup(Dictionary(catalogue, l), prefix) == Undefined
    ensures Translation(catalogue, l, Join(prefix + rest, '.')) == Join(prefix + rest, '.')
  {
    var path := prefix + rest;
    forall k | 0 <= k < |path| ensures '.' !in path[k] {
      if k < |prefix| {
        assert path[k] == prefix[k];
      } else {
        assert path[k] == rest[k - |prefix|];
      }
    }
    SplitJoin(path, '.');
    LookupAppend(Dictionary(catalogue, l), prefix, rest);
    LookupUndefined(rest);
  }

  // ---------------------------------------------------------------------
  // isValidLocale
  // ---------------------------------------------------------------------

  /** The properties every object inherits from `Object.prototype`, which
      the `in` operator also finds. */
  const InheritedKeys: set<string> := {
    "constructor", "hasOwnProperty", "isPrototypeOf", "propertyIsEnumerable",
    "toLocaleString", "toString", "valueOf", "__proto__",
    "__defineGetter__", "__defineSetter__", "__lookupGetter__", "__lookupSetter__"
  }

  /** `isValidLocale` as written: `locale in locales`, which is also true of
      the inherited property names. */
  function IsValidLocaleAsWritten(locale: string): (b: bool)
    ensures b <==> (exists l :: LocaleName(l) == locale) || locale in InheritedKeys
  {
    assert LocaleName(Pt) == "pt" && LocaleName(En) == "en";
    locale == "pt" || locale == "en" || locale in InheritedKeys
  }

  /** The type guard of the code as written lets through a name that is no
      locale. */
  lemma AsWrittenAcceptsInheritedName()
    ensures IsValidLocaleAsWritten("toString")
    ensures forall l :: LocaleName(l) != "toString"
  {
  }

  /** `isValidLocale` as intended: true exactly of the names of the
      supported locales (an own-property check). */
  function IsValidLocale(locale: string): (b: bool)
    ensures b <==> exists l :: LocaleName(l) == locale
  {
    assert LocaleName(Pt) == "pt" && LocaleName(En) == "en";
    locale == "pt" || locale == "en"
  }

  /** The corrected check accepts each locale's name and nothing else. */
  lemma ValidLocaleNames(locale: string)
    ensures IsValidLocale(locale) ==> locale == "pt" || locale == "en"
    ensures IsValidLocale(LocaleName(Pt)) && IsValidLocale(LocaleName(En))
    ensures !IsValidLocale("toString")
  {
  }

  // ---------------------------------------------------------------------
  // parseAcceptLanguage
  // ---------------------------------------------------------------------

  /** The language code of one header entry: what comes before the first
      `;`, trimmed. */
  function CodeOf(entry: string): string {
    Trim(Split(entry, ';')[0])
  }

  /** The locale an entry names, if it names a supported one: a locale
      whose name the entry's code starts with. No code starts with both
      names, so the answer is unique. */
  function EntryLocale(entry: string): (r: Option<Locale>)
    ensures r.Some? ==> StartsWith(CodeOf(entry), LocaleName(r.value))
    ensures r.None? <==> forall l :: !StartsWith(CodeOf(entry), LocaleName(l))
  {
    assert LocaleName(Pt) == "pt" && LocaleName(En) == "en";
    var code := CodeOf(entry);
    if StartsWith(code, "en") then Some(En)
    else if StartsWith(code, "pt") then Some(Pt)
    else None
  }

  /** The loop over the entries: the first supported one wins, Portuguese
      when none is. */
  function FirstSupported(entries: seq<string>): Locale
    decreases |entries|
  {
    if entries == [] then Pt
    else match EntryLocale(entries[0])
      case Some(l) => l
      case None => FirstSupported(entries[1..])
  }

  /** The first entry that names a supported locale decides. */
  lemma {:induction false} FirstSupportedWins(entries: seq<string>, i: nat)
    requires i < |entries| && EntryLocale(entries[i]).Some?
    requires forall j :: 0 <= j < i ==> EntryLocale(entries[j]).None?
    ensures FirstSupported(entries) == EntryLocale(entries[i]).value
    decreases i
  {
    if i > 0 {
      assert EntryLocale(entries[0]).None?;
      forall j | 0 <= j < i - 1 ensures EntryLocale(entries[1..][j]).None? {
        assert entries[1..][j] == entries[j + 1];
      }
      FirstSupportedWins(entries[1..], i - 1);
    }
  }

  /** No entry names a supported locale: Portuguese. */
  lemma {:induction false} FirstSupportedDefault(entries: seq<string>)
    requires forall j :: 0 <= j < |entries| ==> EntryLocale(entries[j]).None?
    ensures FirstSupported(entries) == Pt
    decreases |entries|
  {
    if entries != [] {
      assert EntryLocale(entries[0]).None?;
      forall j | 0 <= j < |entries| - 1 ensures EntryLocale(entries[1..][j]).None? {
        assert entries[1..][j] == entries[j + 1];
      }
      FirstSupportedDefault(entries[1..]);
    }
  }

  /** `parseAcceptLanguage`: Portuguese for a missing or empty header,
      otherwise the first entry of the lower-cased header that starts with
      `en` or `pt`. */
  function ParseAcceptLanguage(header: Option<string>): (r: Locale)
    ensures header.None? || header.value == "" ==> r == Pt
  {
    if header.None? || header.value == "" then Pt
    else FirstSupported(Split(ToLowerAscii(header.value), ','))
  }

  /** Lower-casing twice is lower-casing once. */
  lemma LowerIdempotent(s: string)
    ensures ToLowerAscii(ToLowerAscii(s)) == ToLowerAscii(s)
  {
  }

  /** The choice ignores letter case. */
  lemma CaseInsensitive(header: string)
    ensures ParseAcceptLanguage(Some(ToLowerAscii(header))) == ParseAcceptLanguage(Some(header))
  {
    LowerIdempotent(header);
  }

  /** A quality value after the code does not change what the entry
      names. */
  lemma QualityIgnored(code: string, quality: string)
    requires ';' !in code
    ensures EntryLocale(code + ";" + quality) == EntryLocale(code)
  {
    SplitCons(code, quality, ';');
    assert code + ";" + quality == code + [';'] + quality;
  }
}
