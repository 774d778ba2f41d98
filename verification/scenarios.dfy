/**
 The behaviours the repository's test suite pins down, stated on the model
 with the suite's own base object `{container, alert, text}`.
 */
module ClassNamesScenarios {
  import opened ClassNames

  function MockBase(): ClassMap
  {
    map["container" := Str("container"), "alert" := Str("alert"), "text" := Str("text")]
  }

  /** The custom merge of the suite, `srcValue => srcValue`. */
  function TakeSource(): Merge
  {
    (srcValue: Val, baseVal: Val, key: string, result: ClassMap) => srcValue
  }

  /** The override of the suite, `() => 'overriddenLayout'`. */
  function OverriddenLayout(): Override
  {
    (baseVal: Val, key: string, result: ClassMap) => Str("overriddenLayout")
  }

  /** Three visits of the extension loop, one per entry. */
  lemma Unroll3(m: ClassMap, es: seq<Entry>, merge: Merge)
    requires |es| == 3
    ensures ApplyAll(m, es, merge) == Step(Step(Step(m, es[0], merge), es[1], merge), es[2], merge)
  {
    var m1 := Step(m, es[0], merge);
    var m2 := Step(m1, es[1], merge);
    var m3 := Step(m2, es[2], merge);
    assert ApplyAll(m2, es[2..], merge) == m3 by {
      assert es[2..][0] == es[2] && es[2..][1..] == [];
    }
    assert ApplyAll(m1, es[1..], merge) == m3 by {
      assert es[1..][0] == es[1] && es[1..][1..] == es[2..];
    }
  }

  /** Only a base object: the result holds the same entries. */
  lemma OnlyBase()
    ensures CreateClassNames(MockBase(), None, None) == MockBase()
  {
  }

  /** `null`, `undefined` and `[]` extensions are ignored by the default strategy. */
  lemma NonStringExtensionsIgnored()
    ensures CreateClassNames(MockBase(),
      Some([("container", Plain(Null)), ("alert", Plain(Undefined)), ("text", Plain(Other("")))]), None)
      == MockBase()
  {
  }

  /** A key missing from the base is dropped. */
  lemma MissingKeyDropped()
    ensures CreateClassNames(MockBase(), Some([("nonExistant", Plain(Str("wheee")))]), None) == MockBase()
  {
  }

  /** String extensions are appended after the base value. */
  lemma StringsExtend()
    ensures CreateClassNames(MockBase(),
      Some([("container", Plain(Str("layoutContainer"))), ("alert", Plain(Undefined)), ("text", Plain(Str("moreText")))]), None)
      == map["container" := Str("container layoutContainer"), "alert" := Str("alert"), "text" := Str("text moreText")]
  {
    var es := [("container", Plain(Str("layoutContainer"))), ("alert", Plain(Undefined)), ("text", Plain(Str("moreText")))];
    var merge := DefaultMerge();
    assert "container" + " " + "layoutContainer" == "container layoutContainer";
    assert "text" + " " + "moreText" == "text moreText";
    var m1 := Step(MockBase(), es[0], merge);
    var m2 := Step(m1, es[1], merge);
    var m3 := Step(m2, es[2], merge);
    assert m1 == MockBase()["container" := Str("container layoutContainer")];
    assert m2 == m1;
    assert m3 == m1["text" := Str("text moreText")];
    Unroll3(MockBase(), es, merge);
  }

  /** A custom merge replaces the default, for `undefined` too. */
  lemma CustomMergeScenario()
    ensures CreateClassNames(MockBase(),
      Some([("container", Plain(Str("layoutContainer"))), ("alert", Plain(Undefined)), ("text", Plain(Str("moreText")))]),
      Some(TakeSource()))
      == map["container" := Str("layoutContainer"), "alert" := Undefined, "text" := Str("moreText")]
  {
  }

  /** A function-valued extension overrides one key; the others use the default. */
  lemma OverrideOneKey()
    ensures CreateClassNames(MockBase(),
      Some([("container", Fn(OverriddenLayout())), ("text", Plain(Str("moreText")))]), None)
      == map["container" := Str("overriddenLayout"), "alert" := Str("alert"), "text" := Str("text moreText")]
  {
    var es := [("container", Fn(OverriddenLayout())), ("text", Plain(Str("moreText")))];
    var merge := DefaultMerge();
    var m1 := MockBase()["container" := Str("overriddenLayout")];
    var m2 := m1["text" := Str("text moreText")];
    assert Step(MockBase(), es[0], merge) == m1;
    assert Step(m1, es[1], merge) == m2 by {
      assert "text" + " " + "moreText" == "text moreText";
      assert MergeStrategy(Str("moreText"), Str("text")) == Str("text moreText");
    }
    assert ApplyAll(m1, es[1..], merge) == m2 by {
      assert es[1..][1..] == [];
    }
  }

  /** The override wins over a custom merge for its key. */
  lemma OverrideAndCustomMerge()
    ensures CreateClassNames(MockBase(),
      Some([("container", Fn(OverriddenLayout())), ("alert", Plain(Undefined)), ("text", Plain(Str("moreText")))]),
      Some(TakeSource()))
      == map["container" := Str("overriddenLayout"), "alert" := Undefined, "text" := Str("moreText")]
  {
  }
}
