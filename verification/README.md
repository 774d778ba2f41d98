# create-class-names in Dafny

A model of `createClassNames(base, extensions, merge)`, a small utility that
extends a map of CSS class-name strings. The result starts as a copy of
`base`. The extension entries are then visited in order:

- an entry whose key `base` does not have is skipped;
- a function-valued entry is a per-key override: it is called with
  `(baseVal, key, resultSoFar)` and its return value replaces the key's value;
- any other entry goes to the merge strategy, called with
  `(extensionValue, baseVal, key, resultSoFar)`.

The default strategy `mergeStrategy` appends a string extension after the
base value, separated by one space (`"container layoutContainer"`). It ignores
every extension that is not a string. A caller-supplied `merge` replaces it
for every non-function entry.

Files:

- `class_names.dfy` (module `ClassNames`): the data model and the operations.
  - `Val` holds the values a class map can contain: strings, `undefined`,
    `null`, and `Other` for anything else.
  - `Ext` is an extension value: `Plain(v)` or `Fn(override)`. It replaces the
    source's `typeof val === 'function'` check.
  - `MergeStrategy` is the default strategy.
  - `Step` is one visit of the extension loop and `ApplyAll` is the whole loop.
  - `CreateClassNames` is the entry point. An omitted argument is `None`.
- `class_list.dfy` (module `ClassList`): reads a class string as its
  space-separated pieces. `Split` behaves like JavaScript's `s.split(' ')` and
  `Join` like `parts.join(' ')`. This reading gives the default strategy an
  independent partner: the merged string's pieces are the base's pieces
  followed by the extension's pieces.
- `properties.dfy` (module `ClassNamesProperties`): per-key lemmas about the
  result.
  - These lemmas require distinct keys, as a JavaScript object's own keys always are.
  - They prove that an override or merge sees the original base value.
  - They also prove that entries with unknown keys contribute nothing.
- `scenarios.dfy` (module `ClassNamesScenarios`): the repository's test cases,
  stated as lemmas about the model.

The operations take no distinct-key precondition: the loop is defined for
any entry sequence. Only the lemmas about what one entry does assume distinct keys.

`createClassNames` calls `merge(val, baseVal, key, result)` with four
arguments (src/index.js:31). So `Merge` takes all four, and `DefaultMerge`
drops the last two, as `mergeStrategy(srcValue, baseVal)` does
(src/index.js:9).

## Model

| member | source | states |
|---|---|---|
| ClassNames.MergeStrategy | src/index.js:9-15 | an extension that is not a string leaves the base value as it is; a string extension always produces a string |
| ClassNames.MergeStrategyAppends | src/index.js:13-14 | for a string extension, the merged value read as space-separated pieces is the base value's pieces followed by the extension's pieces: base first, exactly one separator added |
| ClassNames.Render | src/index.js:14 | the template-literal interpolation `${baseVal}` of a string is that string itself |
| ClassNames.Strategy | src/index.js:20 | the default parameter `merge = mergeStrategy`: a supplied merge is the strategy in force |
| ClassNames.StrategyDefault | src/index.js:20 | with no merge argument, the strategy in force is `mergeStrategy(srcValue, baseVal)`, whatever the key and result so far |
| ClassList.SplitAppend | src/index.js:14 | joining two strings with one space concatenates their piece lists |
| ClassList.JoinSplit | src/index.js:14 | rejoining the pieces of a string with single spaces gives back the string, so the piece reading loses nothing |
| ClassList.SplitJoin | src/index.js:14 | joining space-free pieces with single spaces and splitting again gives back the same pieces |
| ClassNames.Step | src/index.js:25-32 | one loop visit keeps the key set; for a key the result lacks it changes nothing; it never changes any key other than the entry's |
| ClassNames.ApplyAll | src/index.js:24-34 | the extension loop keeps the key set, and every key no entry mentions keeps its value |
| ClassNames.CreateClassNames | src/index.js:17-37 | the result has exactly the base's keys; with no extensions or an empty sequence of them it equals the base; a base key no extension mentions keeps its base value |
| ClassNamesProperties.ApplyAllAppend | src/index.js:24-34 | the entries are processed strictly in order: the loop over `a + b` is the loop over `a` followed by the loop over `b` |
| ClassNamesProperties.EntryOutcome | src/index.js:25-32 | with distinct keys, the value entry `i` sees as `baseVal` is the original base value; an override entry sets its key to `f(base[k], k, resultSoFar)` and a plain one to `merge(v, base[k], k, resultSoFar)`, where `resultSoFar` is the result of the entries before `i`; no later entry changes that key |
| ClassNamesProperties.DefaultAppends | src/index.js:13-31 | with the default strategy, a string extension `s` on a key whose base value is `b` yields `b + " " + s`, whose pieces are those of `b` followed by those of `s` |
| ClassNamesProperties.DefaultIgnoresNonString | src/index.js:10-31 | with the default strategy, an extension that is neither a string nor a function leaves the key at its base value |
| ClassNamesProperties.OverrideTakesPrecedence | src/index.js:28-29 | a function-valued extension sets its key to `f(base[k], k, resultSoFar)`, whichever merge strategy (default or custom) is passed |
| ClassNamesProperties.CustomMergeUsed | src/index.js:20-31 | a supplied merge decides every non-function extension, string or not, receiving the extension value, the original base value, the key and the result so far |
| ClassNamesProperties.UnknownKeysIgnored | src/index.js:24-26 | dropping every entry whose key the map lacks leaves the loop's result unchanged |
| ClassNamesProperties.ExtraKeysDropped | src/index.js:22-34 | extension keys absent from the base change nothing in the result of `createClassNames` |
| ClassNamesScenarios.OnlyBase | src/__tests__/index.spec.js:14-20 | with only a base object, the result equals it |
| ClassNamesScenarios.NonStringExtensionsIgnored | src/__tests__/index.spec.js:22-34 | `null`, `undefined` and `[]` extensions leave every value unchanged |
| ClassNamesScenarios.MissingKeyDropped | src/__tests__/index.spec.js:36-46 | an extension key missing from the base is dropped |
| ClassNamesScenarios.StringsExtend | src/__tests__/index.spec.js:48-60 | string extensions give `container layoutContainer` and `text moreText`; `alert` stays `alert` |
| ClassNamesScenarios.CustomMergeScenario | src/__tests__/index.spec.js:62-76 | with `srcValue => srcValue` as merge, each key takes the extension value, `undefined` included |
| ClassNamesScenarios.OverrideOneKey | src/__tests__/index.spec.js:78-89 | an override on `container` gives `overriddenLayout` while `text` is still appended by the default strategy |
| ClassNamesScenarios.OverrideAndCustomMerge | src/__tests__/index.spec.js:91-105 | the override on `container` wins over the custom merge, which decides `alert` and `text` |

## Left out

- Object identity: the result is a fresh object in the source (src/__tests__/index.spec.js:10-12). Dafny maps are values, so identity has no meaning here.
- JavaScript object mechanics are not modelled: `for...in` enumeration order, the prototype chain behind `hasOwnProperty`, and the copy made by `Object.assign`. The extensions are an explicit ordered sequence of (key, value) entries, which is what the `forEach` helper (src/index.js:1-7) visits. The base and the result are Dafny maps. A key named `hasOwnProperty` is an ordinary key in the model. In the source, such a key shadows the prototype method. If its value is not a function, the call at src/index.js:3 (extensions) or src/index.js:25 (base) throws a TypeError. If the extensions object's own `hasOwnProperty` is a function, line 3 calls it for every key, and its return value decides which entries are visited. Likewise, if the base's own `hasOwnProperty` is a function, line 25 calls the copy held by the result, and its return value decides which keys are updated.
- Override and merge functions are pure and total Dafny functions. They receive a snapshot of the result so far. In JavaScript they receive the live `result` object and could mutate it or throw; neither effect is modelled.
- Template-literal coercion of non-string values: `Other` carries the text `${v}` would give. How JavaScript computes that text for arrays, objects or numbers is not modelled.
- The `typeof` dispatch is not modelled as such: the caller states the kind of each extension value through the `Ext` constructor.
- `module.exports` and the test harness carry no logic. The test cases appear only as the lemmas in `scenarios.dfy`.
- ClassNames.MergeStrategy: its own contract says only that a string extension gives a string. What that string holds is stated by `ClassNames.MergeStrategyAppends`, kept separate so that concrete uses of the strategy do not unfold `Split`.
