/**
 The placeholder widget's conversion between the model element
 `placeholder` (one attribute, `name`) and its view markup
 `<span class="placeholder">{{ name }}</span>`.

 The inner text is produced by string concatenation on the way down and
 recovered by a fixed-offset `slice(3, -3)` on the way up; the upcast does
 not look at the delimiters it strips.
 */
module PlaceholderEditing {
  import opened Wrappers
  import opened JsString

  const OpeningDelimiter: string := "{{ "
  const ClosingDelimiter: string := " }}"
  const PlaceholderClass: string := "placeholder"

  /** The model element `placeholder`. Its `name` attribute is a string
      when set and `undefined` when the element carries none. */
  datatype Placeholder = Placeholder(name: Option<string>)

  /** The part of the host's view tree the converters produce and match. */
  datatype ViewNode =
    | Text(data: string)
    | Element(name: string, classes: set<string>, children: seq<ViewNode>, widget: bool)

  /** What the upcast converter yields for a view element: it is not
      matched, or it creates a model element, or reading the text of the
      first child throws (there is no first child, or it is not text). */
  datatype UpcastResult = NotMatched | Created(element: Placeholder) | TypeError

  // ---------------------------------------------------------------------
  // Text codec
  // ---------------------------------------------------------------------

  /** The inner text of the placeholder's view: the name between the
      three-character delimiters. */
  function Encode(name: string): (r: string)
    ensures |r| == |name| + 6
    ensures r[..3] == OpeningDelimiter
    ensures r[|r| - 3..] == ClosingDelimiter
    ensures r[3..|r| - 3] == name
  {
    OpeningDelimiter + name + ClosingDelimiter
  }

  /** The name recovered from the inner text: whatever lies between the
      first three and the last three characters, with JavaScript `slice`
      clamping for short text. */
  function Decode(text: string): (r: string)
    ensures |text| >= 6 ==> r == text[3..|text| - 3]
    ensures |text| <= 6 ==> r == ""
  {
    Slice(text, 3, -3)
  }

  /** Text that carries both delimiters around a (possibly empty) name. */
  predicate IsDelimited(text: string)
  {
    && |text| >= 6
    && text[..3] == OpeningDelimiter
    && text[|text| - 3..] == ClosingDelimiter
  }

  /** Decoding an encoding gives back the name, whatever characters the
      name holds (delimiter sequences included). */
  lemma DecodeEncode(name: string)
    ensures Decode(Encode(name)) == name
  {
  }

  /** Two names with the same encoding are the same name. */
  lemma EncodeInjective(a: string, b: string)
    ensures Encode(a) == Encode(b) <==> a == b
  {
  }

  /** Re-encoding a decoded text reproduces it exactly when the text was
      delimited: the decoder accepts anything, but only delimited text
      survives the trip back. */
  lemma EncodeDecode(text: string)
    ensures Encode(Decode(text)) == text <==> IsDelimited(text)
  {
  }

  // ---------------------------------------------------------------------
  // Model <-> view conversion
  // ---------------------------------------------------------------------

  /** The view shared by both downcast pipelines: a `span` with the class
      `placeholder` holding one text node with the encoded name (an
      absent `name` is rendered as `undefined`). */
  function CreatePlaceholderView(element: Placeholder): (v: ViewNode)
    ensures v.Element? && v.name == "span" && v.classes == {PlaceholderClass}
    ensures |v.children| == 1 && v.children[0].Text?
    ensures Decode(v.children[0].data) == ToJsString(element.name)
    ensures !v.widget
  {
    DecodeEncode(ToJsString(element.name));
    Element("span", {PlaceholderClass}, [Text(Encode(ToJsString(element.name)))], false)
  }

  /** Marks a view element as a widget in the editing view. */
  function ToWidget(v: ViewNode): (w: ViewNode)
    requires v.Element?
    ensures w.Element? && w.widget
    ensures w.name == v.name && w.classes == v.classes && w.children == v.children
  {
    v.(widget := true)
  }

  /** The editing-pipeline downcast: the placeholder view, as a widget. */
  function EditingDowncast(element: Placeholder): (v: ViewNode)
    ensures v.Element? && v.widget
  {
    ToWidget(CreatePlaceholderView(element))
  }

  /** The data-pipeline downcast: the placeholder view, not a widget. */
  function DataDowncast(element: Placeholder): (v: ViewNode)
    ensures v.Element? && !v.widget
  {
    CreatePlaceholderView(element)
  }

  /** The view pattern of the upcast: a `span` carrying (at least) the
      class `placeholder`. */
  predicate MatchesPlaceholderView(v: ViewNode)
  {
    v.Element? && v.name == "span" && PlaceholderClass in v.classes
  }

  /** The upcast converter: a matching view element becomes a model
      `placeholder` whose `name` is the decoded text of its first child. */
  function Upcast(v: ViewNode): (r: UpcastResult)
    ensures r.NotMatched? <==> !MatchesPlaceholderView(v)
    ensures r.TypeError? <==>
      MatchesPlaceholderView(v) && (|v.children| == 0 || !v.children[0].Text?)
    ensures r.Created? ==>
      && |v.children| > 0 && v.children[0].Text?
      && r.element.name == Some(Decode(v.children[0].data))
  {
    if !MatchesPlaceholderView(v) then NotMatched
    else if |v.children| == 0 || !v.children[0].Text? then TypeError
    else Created(Placeholder(Some(Decode(v.children[0].data))))
  }

  /** Upcasting what either downcast produced creates a placeholder whose
      name is the text the downcast rendered: the original name when it
      was set, `undefined` when it was not. */
  lemma UpcastDowncast(element: Placeholder)
    ensures Upcast(DataDowncast(element)) == Created(Placeholder(Some(ToJsString(element.name))))
    ensures Upcast(EditingDowncast(element)) == Created(Placeholder(Some(ToJsString(element.name))))
    ensures element.name.Some? ==> Upcast(DataDowncast(element)) == Created(element)
  {
  }

  /** Well-formed data markup: exactly the class `placeholder`, not a
      widget, and one delimited text child. */
  predicate IsPlaceholderMarkup(v: ViewNode)
  {
    && v.Element? && v.name == "span" && v.classes == {PlaceholderClass} && !v.widget
    && |v.children| == 1 && v.children[0].Text? && IsDelimited(v.children[0].data)
  }

  /** Well-formed placeholder markup survives an upcast followed by the
      data downcast unchanged, and the data downcast only ever produces
      well-formed markup. */
  lemma DowncastUpcast(v: ViewNode)
    ensures IsPlaceholderMarkup(v) ==>
      Upcast(v).Created? && DataDowncast(Upcast(v).element) == v
    ensures forall element: Placeholder :: IsPlaceholderMarkup(DataDowncast(element))
  {
    if IsPlaceholderMarkup(v) {
      var text := v.children[0].data;
      EncodeDecode(text);
      assert Upcast(v) == Created(Placeholder(Some(Decode(text))));
      assert DataDowncast(Upcast(v).element).children == [Text(text)];
    }
    forall element: Placeholder
      ensures IsPlaceholderMarkup(DataDowncast(element))
    {
      EncodeDecode(ToJsString(element.name));
      DecodeEncode(ToJsString(element.name));
    }
  }

  /** Both downcasts build the same `span`, class and inner text; only the
      editing one is a widget. */
  lemma DowncastsAgree(element: Placeholder)
    ensures EditingDowncast(element).widget && !DataDowncast(element).widget
    ensures DataDowncast(element).Element? &&
      EditingDowncast(element) == DataDowncast(element).(widget := true)
  {
  }
}
