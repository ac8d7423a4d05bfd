/** Per-label and per-edge-type style settings (`settings.style.labels` and
    `settings.style.edges`): a hidden flag plus rendering attributes. */
module Styles {
  import opened Elements

  /** The `image` entry of a label style: its `url` and any other attributes. */
  datatype Image = Image(url: Option<string>, attrs: Props)

  /** The `icon` entry of a label style: its `name` and any other attributes. */
  datatype Icon = Icon(name: Option<string>, attrs: Props)

  /** A label style; `image` and `icon` are absent when the object has no
      such key. */
  datatype LabelStyle = LabelStyle(hidden: bool, image: Option<Image>, icon: Option<Icon>, attrs: Props)

  datatype EdgeStyle = EdgeStyle(hidden: bool, attrs: Props)

  /** The empty object `{}` in the image and icon positions. */
  const EmptyImage := Image(None, map[])
  const EmptyIcon := Icon(None, map[])

  /** The style entry a missing label or edge type starts from when only its
      `hidden` flag is written: no image, no icon, no other attribute. */
  const BlankLabelStyle := LabelStyle(false, None, None, map[])
  const BlankEdgeStyle := EdgeStyle(false, map[])

  /** JavaScript truthiness of an optional string: present and non-empty. */
  predicate Truthy(s: Option<string>)
  {
    s.Some? && s.value != ""
  }

  /** `saveLabelStyle` can read `style.image.url` and `style.icon.name`:
      both objects are there. Without one of them the read throws. */
  predicate Saveable(style: LabelStyle)
  {
    style.image.Some? && style.icon.Some?
  }

  /** No image or icon entry is half-filled: each is `{}` or has its key set. */
  predicate Normalised(style: LabelStyle)
  {
    && (style.image == Some(EmptyImage) || (style.image.Some? && Truthy(style.image.value.url)))
    && (style.icon == Some(EmptyIcon) || (style.icon.Some? && Truthy(style.icon.value.name)))
  }

  /** The style `saveLabelStyle` stores: an image without a url and an icon
      without a name are replaced by `{}`. */
  function Cleaned(style: LabelStyle): LabelStyle
    requires Saveable(style)
  {
    style.(image := if Truthy(style.image.value.url) then style.image else Some(EmptyImage),
           icon := if Truthy(style.icon.value.name) then style.icon else Some(EmptyIcon))
  }

  /** A saved style is normalised, keeps its hidden flag and attributes, and
      keeps an image or icon whose key is set. */
  lemma CleanedIsNormalised(style: LabelStyle)
    requires Saveable(style)
    ensures Normalised(Cleaned(style)) && Saveable(Cleaned(style))
    ensures Cleaned(style).hidden == style.hidden && Cleaned(style).attrs == style.attrs
    ensures Truthy(style.image.value.url) ==> Cleaned(style).image == style.image
    ensures Truthy(style.icon.value.name) ==> Cleaned(style).icon == style.icon
  {
  }

  /** Cleaning changes nothing in a style that is already normalised, so
      saving a saved style again stores the same value. */
  lemma CleanedFixesNormalised(style: LabelStyle)
    requires Normalised(style)
    ensures Saveable(style) && Cleaned(style) == style
  {
  }

  /** The label styles after `toggleLabelVisibility(label)`: the entry's
      `hidden` flag is negated; a missing entry is created hidden. */
  function LabelsToggled(styles: map<Label, LabelStyle>, labelName: Label): map<Label, LabelStyle>
  {
    var current := if labelName in styles then styles[labelName] else BlankLabelStyle;
    styles[labelName := current.(hidden := !current.hidden)]
  }

  /** The edge styles after `toggleEdgeVisibility(kind)`. */
  function EdgesToggled(styles: map<string, EdgeStyle>, kind: string): map<string, EdgeStyle>
  {
    var current := if kind in styles then styles[kind] else BlankEdgeStyle;
    styles[kind := current.(hidden := !current.hidden)]
  }

  /** Toggling flips the label's visibility, touches no other label, and
      toggling an existing label twice restores the settings. */
  lemma LabelToggleFlips(styles: map<Label, LabelStyle>, labelName: Label)
    ensures labelName in LabelsToggled(styles, labelName)
    ensures labelName in styles ==> LabelsToggled(styles, labelName)[labelName] == styles[labelName].(hidden := !styles[labelName].hidden)
    ensures labelName !in styles ==> LabelsToggled(styles, labelName)[labelName].hidden
    ensures forall l :: l != labelName ==> (l in LabelsToggled(styles, labelName) <==> l in styles)
    ensures forall l :: l != labelName && l in styles ==> LabelsToggled(styles, labelName)[l] == styles[l]
    ensures labelName in styles ==> LabelsToggled(LabelsToggled(styles, labelName), labelName) == styles
  {
    if labelName in styles {
      var twice := LabelsToggled(LabelsToggled(styles, labelName), labelName);
      assert twice[labelName] == styles[labelName];
    }
  }

  /** Toggling flips the edge type's visibility, touches no other type, and
      toggling an existing type twice restores the settings. */
  lemma EdgeToggleFlips(styles: map<string, EdgeStyle>, kind: string)
    ensures kind in EdgesToggled(styles, kind)
    ensures kind in styles ==> EdgesToggled(styles, kind)[kind] == styles[kind].(hidden := !styles[kind].hidden)
    ensures kind !in styles ==> EdgesToggled(styles, kind)[kind].hidden
    ensures forall t :: t != kind ==> (t in EdgesToggled(styles, kind) <==> t in styles)
    ensures forall t :: t != kind && t in styles ==> EdgesToggled(styles, kind)[t] == styles[t]
    ensures kind in styles ==> EdgesToggled(EdgesToggled(styles, kind), kind) == styles
  {
    if kind in styles {
      var twice := EdgesToggled(EdgesToggled(styles, kind), kind);
      assert twice[kind] == styles[kind];
    }
  }
}
