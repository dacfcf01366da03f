// The icon of a workspace item (views/shared/ItemDepiction/ItemDepiction.tsx): a stack of icon
// names, most specific first, from the item's plugin and type.
module ItemDepiction {
  import opened Results
  import opened JsStrings
  import opened JsArrays

  /** String interpolation of an optional string: a missing one renders as "undefined". */
  function Rendered(s: Option<string>): string
  {
    s.GetOr("undefined")
  }

  predicate Truthy(s: Option<string>)
  {
    s.Some? && s.value != ""
  }

  /** The names before mapping: "type-plugin" (or the plugin alone), then the type when it is set. */
  function NameStack(itemType: Option<string>, pluginId: Option<string>): seq<string>
  {
    [(if Truthy(itemType) then itemType.value + "-" else "") + Rendered(pluginId)]
    + (if Truthy(itemType) then [itemType.value] else [])
  }

  function IconName(name: string): string
  {
    "artefact-" + ToLower(name)
  }

  /** The icon names the depiction shows. */
  function IconNames(itemType: Option<string>, pluginId: Option<string>): seq<string>
  {
    var stack := NameStack(itemType, pluginId);
    Dedup(seq(|stack|, i requires 0 <= i < |stack| => IconName(stack[i])))
  }

  /**
   * The de-duplication never removes a name: the plugin's name is always longer than the
   * type's. So there is one icon name for the plugin and, when a type is set, a second one
   * for the type, all "artefact-" and lower case.
   */
  lemma IconNamesSpec(itemType: Option<string>, pluginId: Option<string>)
    ensures var r := IconNames(itemType, pluginId);
            && |r| == (if Truthy(itemType) then 2 else 1)
            && r[0] == IconName((if Truthy(itemType) then itemType.value + "-" else "") + Rendered(pluginId))
            && (Truthy(itemType) ==> r[1] == IconName(itemType.value))
            && (forall i :: 0 <= i < |r| ==> StartsWith(r[i], "artefact-"))
  {
    var stack := NameStack(itemType, pluginId);
    var mapped := seq(|stack|, i requires 0 <= i < |stack| => IconName(stack[i]));
    var first := IconName(stack[0]);
    DedupSnoc([], first);
    assert [] + [first] == [first];
    if Truthy(itemType) {
      var second := IconName(itemType.value);
      assert |first| > |second|;
      assert mapped == [first] + [second];
      DedupSnoc([first], second);
    } else {
      assert mapped == [first];
    }
    var r := IconNames(itemType, pluginId);
    forall i | 0 <= i < |r|
      ensures StartsWith(r[i], "artefact-")
    {
      assert r[i][..9] == "artefact-";
    }
  }
}
