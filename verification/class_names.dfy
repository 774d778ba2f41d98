/**
 `createClassNames(base, extensions, merge)`: extend a map of CSS class-name
 strings with caller-supplied extensions.

 The result starts as a copy of `base`. The extension entries are then visited
 in order. An entry whose key `base` lacks is skipped. For any other key, the
 entry's value is either a per-key override function, which computes the new
 value alone, or a plain value, which the merge strategy combines with the
 current value. The default strategy appends a string extension after the
 base value, separated by one space, and ignores anything that is not a
 string.
 */
module ClassNames {
  import ClassList

  datatype Option<T> = None | Some(value: T)

  /** The values a class-name map can hold. A value that is neither a string,
      `undefined` nor `null` (a number, an array, an object, ...) is `Other`,
      carrying the text that template-literal interpolation turns it into. */
  datatype Val = Str(s: string) | Undefined | Null | Other(shown: string)

  /** A map from class keys to values, such as `{container: 'container'}`. */
  type ClassMap = map<string, Val>

  /** A per-key override: `(baseVal, key, resultSoFar) -> newValue`. */
  type Override = (Val, string, ClassMap) -> Val

  /** A merge strategy: `(extensionValue, baseVal, key, resultSoFar) -> newValue`. */
  type Merge = (Val, Val, string, ClassMap) -> Val

  /** An extension value, told apart the way `typeof val === 'function'` does. */
  datatype Ext = Plain(v: Val) | Fn(f: Override)

  /** One own property of the extensions object, in enumeration order. */
  type Entry = (string, Ext)

  /** The keys an entry sequence mentions. */
  function KeysOf(entries: seq<Entry>): set<string>
    decreases |entries|
  {
    if |entries| == 0 then {} else {entries[0].0} + KeysOf(entries[1..])
  }

  /** The own keys of a JavaScript object are pairwise distinct. */
  predicate DistinctKeys(entries: seq<Entry>)
  {
    forall i, j :: 0 <= i < j < |entries| ==> entries[i].0 != entries[j].0
  }

  /** The text template-literal interpolation `${v}` produces for `v`. */
  function Render(v: Val): (r: string)
    ensures v.Str? ==> r == v.s
  {
    match v
    case Str(s) => s
    case Undefined => "undefined"
    case Null => "null"
    case Other(shown) => shown
  }

  /** The default strategy: a string extension is appended to the base value
      as one more space-separated piece; any other extension is ignored. */
  function MergeStrategy(srcValue: Val, baseVal: Val): (r: Val)
    ensures !srcValue.Str? ==> r == baseVal
    ensures srcValue.Str? ==> r.Str?
  {
    if !srcValue.Str? then baseVal
    else Str(Render(baseVal) + " " + srcValue.s)
  }

  /** Read as class lists, a merged string is the base value's pieces
      followed by the extension's pieces: the base comes first and exactly
      one separating space is added. */
  lemma MergeStrategyAppends(srcValue: Val, baseVal: Val)
    requires srcValue.Str?
    ensures ClassList.Split(MergeStrategy(srcValue, baseVal).s)
      == ClassList.Split(Render(baseVal)) + ClassList.Split(srcValue.s)
  {
    ClassList.SplitAppend(Render(baseVal), srcValue.s);
  }

  /** `mergeStrategy` seen through the four-argument merge signature. */
  function DefaultMerge(): Merge
  {
    (srcValue: Val, baseVal: Val, key: string, result: ClassMap) => MergeStrategy(srcValue, baseVal)
  }

  /** The strategy in force: the caller's, or the default when none is passed. */
  function Strategy(merge: Option<Merge>): (r: Merge)
    ensures merge.Some? ==> r == merge.value
  {
    if merge.Some? then merge.value else DefaultMerge()
  }

  /** With no merge argument, the strategy in force is `mergeStrategy`,
      which ignores the key and the result so far. */
  lemma StrategyDefault(srcValue: Val, baseVal: Val, key: string, result: ClassMap)
    ensures Strategy(None)(srcValue, baseVal, key, result) == MergeStrategy(srcValue, baseVal)
  {
  }

  /** One visit of the extension loop: update `result` for one entry. */
  function Step(result: ClassMap, entry: Entry, merge: Merge): (r: ClassMap)
    ensures r.Keys == result.Keys
    ensures entry.0 !in result ==> r == result
    ensures forall k :: k in result && k != entry.0 ==> r[k] == result[k]
  {
    var (key, ext) := entry;
    if key !in result then result
    else
      var baseVal := result[key];
      match ext
      case Fn(f) => result[key := f(baseVal, key, result)]
      case Plain(v) => result[key := merge(v, baseVal, key, result)]
  }

  /** The extension loop: `Step` for every entry, in order. */
  function ApplyAll(result: ClassMap, entries: seq<Entry>, merge: Merge): (r: ClassMap)
    ensures r.Keys == result.Keys
    ensures forall k :: k in result && k !in KeysOf(entries) ==> r[k] == result[k]
    decreases |entries|
  {
    if |entries| == 0 then result
    else ApplyAll(Step(result, entries[0], merge), entries[1..], merge)
  }

  /** `createClassNames(base, extensions, merge)`. `None` stands for an
      omitted argument. */
  function CreateClassNames(base: ClassMap, extensions: Option<seq<Entry>>, merge: Option<Merge>): (r: ClassMap)
    ensures r.Keys == base.Keys
    ensures extensions.None? || |extensions.value| == 0 ==> r == base
    ensures forall k :: k in base && (extensions.None? || k !in KeysOf(extensions.value)) ==> r[k] == base[k]
  {
    match extensions
    case None => base
    case Some(entries) => ApplyAll(base, entries, Strategy(merge))
  }
}
