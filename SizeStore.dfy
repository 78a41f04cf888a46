/**
  The size-option store of `AppComponent` as values: the catalog of resize
  targets, the selected option id and the browser's `localStorage`, and the
  transitions the component's handlers make on them. The class in App runs
  these transitions by assigning its fields; the lemmas here state what the
  transitions keep and what reloading the page restores.
*/
module SizeStore {
  import opened Wrappers
  import CustomSize

  /** One entry of `sizeOptions`; `resizeWidth`/`resizeHeight` are `null` for an unset custom slot. */
  datatype SizeOption = SizeOption(
    id: string,
    value: string,
    resizeWidth: Option<nat>,
    resizeHeight: Option<nat>,
    isCustom: bool)

  /** The two `localStorage` keys. */
  const SelectedResizeOption: string := "selectedResizeOption"
  const CustomSizeKey: string := "customSize"

  const CustomSlot: SizeOption := SizeOption("4", "Custom Size", None, None, true)

  /** `sizeOptions` as the component is created: three presets and the unset custom slot. */
  const InitialOptions: seq<SizeOption> := [
    SizeOption("1", "500x500 px", Some(500), Some(500), false),
    SizeOption("2", "1024x1024 px", Some(1024), Some(1024), false),
    SizeOption("3", "2048x2048 px", Some(2048), Some(2048), false),
    CustomSlot
  ]

  /** The custom dimensions are both unset, or both set inside the accepted range. */
  predicate CustomDims(w: Option<nat>, h: Option<nat>)
  {
    (w.None? && h.None?) ||
    (w.Some? && h.Some? && CustomSize.InRange(w.value) && CustomSize.InRange(h.value))
  }

  /**
    The catalog as every handler leaves it: the presets exactly as declared,
    and the custom slot differing from its declaration in its dimensions only.
  */
  predicate WellFormed(opts: seq<SizeOption>)
  {
    |opts| == 4 &&
    (forall i :: 0 <= i < 3 ==> opts[i] == InitialOptions[i]) &&
    opts[3] == CustomSlot.(resizeWidth := opts[3].resizeWidth, resizeHeight := opts[3].resizeHeight) &&
    CustomDims(opts[3].resizeWidth, opts[3].resizeHeight)
  }

  /** `sizeOptions.filter(a => a.isCustom)[0]`: the first entry flagged custom. */
  function CustomIndex(opts: seq<SizeOption>): (i: nat)
    requires WellFormed(opts)
    ensures i < |opts| && opts[i].isCustom
    ensures forall k :: 0 <= k < i ==> !opts[k].isCustom
  {
    3
  }

  /** The catalog after the custom entry's `resizeWidth`/`resizeHeight` are assigned. */
  function WithCustom(opts: seq<SizeOption>, width: nat, height: nat): (r: seq<SizeOption>)
    requires WellFormed(opts) && CustomSize.InRange(width) && CustomSize.InRange(height)
    ensures WellFormed(r)
  {
    var i := CustomIndex(opts);
    opts[i := opts[i].(resizeHeight := Some(height), resizeWidth := Some(width))]
  }

  /** The fields of the component that the size handlers read and write. */
  datatype Session = Session(options: seq<SizeOption>, selected: Option<string>, storage: map<string, string>)

  /** The state after a handler, and whether the handler ended by throwing. */
  datatype Step = Step(after: Session, threw: bool)

  /** The state after `parseCustomSize`, and what it returned. */
  datatype Parsed = Parsed(after: Session, result: CustomSize.ParseResult)

  predicate Valid(s: Session)
  {
    WellFormed(s.options)
  }

  /** The field initialisers: the declared catalog, nothing selected, storage as the browser holds it. */
  function Initial(stored: map<string, string>): (s: Session)
    ensures Valid(s)
  {
    Session(InitialOptions, None, stored)
  }

  /** `selectOption(option)`. */
  function Select(s: Session, option: SizeOption): Session
  {
    s.(selected := Some(option.id), storage := s.storage[SelectedResizeOption := option.id])
  }

  /** `parseCustomSize(sz)`: on a range error it also selects the first preset. */
  function ParseCustom(s: Session, sz: string): (p: Parsed)
    requires Valid(s)
    ensures Valid(p.after)
  {
    var r := CustomSize.Parse(sz);
    if r.OutOfRange? then Parsed(Select(s, s.options[0]), r) else Parsed(s, r)
  }

  /**
    `handleCustomSize(sz)`: `None` is the `null` a cancelled prompt returns.
    A text without digits throws inside `parseCustomSize` before anything
    has changed.
  */
  function HandleCustom(s: Session, sz: Option<string>): (t: Step)
    requires Valid(s)
    ensures Valid(t.after)
  {
    if sz.None? then Step(s, false)
    else
      var p := ParseCustom(s, sz.value);
      match p.result
      case NoMatch => Step(p.after, true)
      case OutOfRange(_, _) => Step(p.after, false)
      case Size(w, h) =>
        Step(p.after.(options := WithCustom(p.after.options, w, h),
                      storage := p.after.storage[CustomSizeKey := sz.value]), false)
  }

  /**
    `sizeButtonClick(option)`, with `answer` the result of the prompt that
    `createCustomSize` shows for the custom option. An exception from the
    custom flow skips the final `selectOption`.
  */
  function ButtonClick(s: Session, option: SizeOption, answer: Option<string>): (t: Step)
    requires Valid(s)
    ensures Valid(t.after)
  {
    if option.isCustom then
      var c := HandleCustom(s, answer);
      if c.threw then c else Step(Select(c.after, option), false)
    else Step(Select(s, option), false)
  }

  /**
    The constructor body. A stored id is restored whenever it is present:
    `filter(...)` returns an array, which is truthy even when empty, so the
    id is not checked against the catalog. A stored custom size is then
    replayed through `handleCustomSize`.
  */
  function Hydrate(s: Session): (t: Step)
    requires Valid(s)
    ensures Valid(t.after)
  {
    var s1 := if SelectedResizeOption in s.storage
              then s.(selected := Some(s.storage[SelectedResizeOption])) else s;
    if CustomSizeKey in s1.storage then HandleCustom(s1, Some(s1.storage[CustomSizeKey]))
    else Step(s1, false)
  }

  /** `clearStorage()`: `localStorage.clear()`. */
  function Clear(s: Session): Session
  {
    s.(storage := map[])
  }

  /** A page load: the field initialisers on the stored record, then the constructor body. */
  function Reload(stored: map<string, string>): Step
  {
    Hydrate(Initial(stored))
  }

  // ---------------------------------------------------------------------------
  // Properties of the handlers

  /** Selecting the same option twice leaves the same selection and storage as selecting it once. */
  lemma SelectIdempotent(s: Session, option: SizeOption)
    ensures Select(Select(s, option), option) == Select(s, option)
  {
  }

  /**
    What `handleCustomSize` changes, by the outcome of the parse: a cancelled
    prompt changes nothing; a text without digits throws and changes
    nothing; a range error changes no option and does not write `customSize`
    but selects the first preset; a parsed size sets only the custom slot's
    dimensions and stores the raw text.
  */
  lemma {:induction false} HandleCustomOutcome(s: Session, sz: Option<string>)
    requires Valid(s)
    ensures var t := HandleCustom(s, sz);
      (sz.None? ==> t == Step(s, false)) &&
      (sz.Some? && CustomSize.NoDigits(sz.value) ==> t == Step(s, true)) &&
      (sz.Some? && CustomSize.Parse(sz.value).OutOfRange? ==>
         !t.threw && t.after.options == s.options && t.after.selected == Some("1") &&
         t.after.storage == s.storage[SelectedResizeOption := "1"]) &&
      (sz.Some? && CustomSize.Parse(sz.value).Size? ==>
         !t.threw && t.after.selected == s.selected &&
         t.after.storage == s.storage[CustomSizeKey := sz.value] &&
         (forall i :: 0 <= i < 3 ==> t.after.options[i] == s.options[i]) &&
         t.after.options[3].resizeWidth == Some(CustomSize.Parse(sz.value).width) &&
         t.after.options[3].resizeHeight == Some(CustomSize.Parse(sz.value).height))
  {
    if sz.Some? {
      CustomSize.ParseNoMatchIffNoDigits(sz.value);
    }
  }

  /**
    `sizeButtonClick` throws exactly when the custom prompt returned text
    without a digit; otherwise it ends with the clicked option selected and
    stored, even after a range error in the custom size.
  */
  lemma {:induction false} ButtonClickSelects(s: Session, option: SizeOption, answer: Option<string>)
    requires Valid(s)
    ensures var t := ButtonClick(s, option, answer);
      (t.threw <==> option.isCustom && answer.Some? && CustomSize.NoDigits(answer.value)) &&
      (!t.threw ==> t.after.selected == Some(option.id) &&
                    t.after.storage[SelectedResizeOption] == option.id) &&
      (t.threw ==> t == Step(s, true))
  {
    if option.isCustom && answer.Some? {
      CustomSize.ParseNoMatchIffNoDigits(answer.value);
    }
  }

  // ---------------------------------------------------------------------------
  // Persistence

  /**
    The stored record describes the session: the stored id is the selected
    one, and the stored custom text parses to the custom slot's dimensions
    (no text when the slot is unset).
  */
  predicate Persisted(s: Session)
    requires Valid(s)
  {
    (s.selected.Some? <==> SelectedResizeOption in s.storage) &&
    (s.selected.Some? ==> s.storage[SelectedResizeOption] == s.selected.value) &&
    var c := s.options[3];
    if CustomSizeKey in s.storage then
      c.resizeWidth.Some? && c.resizeHeight.Some? &&
      CustomSize.Parse(s.storage[CustomSizeKey]) == CustomSize.Size(c.resizeWidth.value, c.resizeHeight.value)
    else c.resizeWidth.None?
  }

  /** A well-formed catalog is the declared one with its custom dimensions replaced. */
  lemma {:induction false} WellFormedShape(opts: seq<SizeOption>)
    requires WellFormed(opts)
    ensures opts == InitialOptions[3 := CustomSlot.(resizeWidth := opts[3].resizeWidth,
                                                    resizeHeight := opts[3].resizeHeight)]
  {
    var r := InitialOptions[3 := CustomSlot.(resizeWidth := opts[3].resizeWidth,
                                             resizeHeight := opts[3].resizeHeight)];
    assert |r| == |opts|;
    forall i | 0 <= i < |opts| ensures opts[i] == r[i] {
      if i < 3 { assert opts[i] == InitialOptions[i]; }
    }
  }

  /** Selecting keeps the stored record in step with the session. */
  lemma {:induction false} SelectPersists(s: Session, option: SizeOption)
    requires Valid(s) && Persisted(s)
    ensures Valid(Select(s, option)) && Persisted(Select(s, option))
  {
  }

  /** `handleCustomSize` keeps the stored record in step with the session. */
  lemma {:induction false} HandleCustomPersists(s: Session, sz: Option<string>)
    requires Valid(s) && Persisted(s)
    ensures Persisted(HandleCustom(s, sz).after)
  {
    HandleCustomOutcome(s, sz);
    if sz.Some? && CustomSize.Parse(sz.value).OutOfRange? {
      SelectPersists(s, s.options[0]);
    }
  }

  /** `sizeButtonClick` keeps the stored record in step with the session. */
  lemma {:induction false} ButtonClickPersists(s: Session, option: SizeOption, answer: Option<string>)
    requires Valid(s) && Persisted(s)
    ensures Persisted(ButtonClick(s, option, answer).after)
  {
    if option.isCustom {
      HandleCustomPersists(s, answer);
      var c := HandleCustom(s, answer);
      if !c.threw {
        SelectPersists(c.after, option);
      }
    } else {
      SelectPersists(s, option);
    }
  }

  /**
    Loading the page brings the session in step with the stored record,
    unless a stored custom text fails to parse.
  */
  lemma {:induction false} ReloadPersists(stored: map<string, string>)
    requires CustomSizeKey in stored ==> CustomSize.Parse(stored[CustomSizeKey]).Size?
    ensures !Reload(stored).threw && Persisted(Reload(stored).after)
  {
    var s0 := Initial(stored);
    var s1 := if SelectedResizeOption in s0.storage
              then s0.(selected := Some(s0.storage[SelectedResizeOption])) else s0;
    if CustomSizeKey in stored {
      HandleCustomOutcome(s1, Some(stored[CustomSizeKey]));
    }
  }

  /**
    The persistence round trip: reloading from a record that is in step
    with a session rebuilds exactly that session.
  */
  lemma {:induction false} ReloadRestores(s: Session)
    requires Valid(s) && Persisted(s)
    ensures Reload(s.storage) == Step(s, false)
  {
    WellFormedShape(s.options);
    var s0 := Initial(s.storage);
    var s1 := if SelectedResizeOption in s0.storage
              then s0.(selected := Some(s0.storage[SelectedResizeOption])) else s0;
    assert s1.selected == s.selected;
    if CustomSizeKey in s.storage {
      var text := s.storage[CustomSizeKey];
      HandleCustomOutcome(s1, Some(text));
      var t := HandleCustom(s1, Some(text));
      assert t.after.storage == s.storage;
      WellFormedShape(t.after.options);
      assert t.after.options == s.options;
    }
  }

  /** Loading the page a second time from what the first load stored changes nothing more. */
  lemma {:induction false} ReloadIdempotent(stored: map<string, string>)
    ensures Reload(Reload(stored).after.storage) == Reload(stored)
  {
    var s0 := Initial(stored);
    var s1 := if SelectedResizeOption in s0.storage
              then s0.(selected := Some(s0.storage[SelectedResizeOption])) else s0;
    if CustomSizeKey in stored {
      var text := stored[CustomSizeKey];
      HandleCustomOutcome(s1, Some(text));
      var t := Reload(stored);
      if CustomSize.Parse(text).OutOfRange? {
        var again := Initial(t.after.storage);
        var a1 := again.(selected := Some(t.after.storage[SelectedResizeOption]));
        HandleCustomOutcome(a1, Some(text));
        assert t.after.storage[SelectedResizeOption := "1"] == t.after.storage;
      } else if CustomSize.Parse(text).Size? {
        assert t.after.storage == stored;
      }
    }
  }

  /**
    A stored id is restored even when no option has it, provided the stored
    custom text does not trigger the fallback to the first preset.
  */
  lemma {:induction false} ReloadRestoresAnyId(stored: map<string, string>)
    requires SelectedResizeOption in stored
    requires CustomSizeKey in stored ==> !CustomSize.Parse(stored[CustomSizeKey]).OutOfRange?
    ensures Reload(stored).after.selected == Some(stored[SelectedResizeOption])
  {
    var s0 := Initial(stored);
    var s1 := s0.(selected := Some(stored[SelectedResizeOption]));
    if CustomSizeKey in stored {
      HandleCustomOutcome(s1, Some(stored[CustomSizeKey]));
    }
  }

  /** An id "9" left in storage is restored although the catalog has no such option. */
  lemma ReloadUnknownIdExample()
    ensures Reload(map[SelectedResizeOption := "9"]).after.selected == Some("9")
    ensures forall i :: 0 <= i < |InitialOptions| ==> InitialOptions[i].id != "9"
  {
    ReloadRestoresAnyId(map[SelectedResizeOption := "9"]);
  }

  /**
    The round trip of a reload: after a session that stored `customSize` =
    "300,300" and selected the custom option, a reload restores the custom
    target as 300 by 300 and selects it.
  */
  lemma ReloadCustomExample()
    ensures var t := Reload(map[SelectedResizeOption := "4", CustomSizeKey := "300" + "," + "300"]);
      !t.threw && t.after.selected == Some("4") &&
      t.after.options[3].resizeWidth == Some(300) && t.after.options[3].resizeHeight == Some(300)
  {
    var stored := map[SelectedResizeOption := "4", CustomSizeKey := "300" + "," + "300"];
    CustomSize.ParseExampleSquare();
    ReloadRestoresAnyId(stored);
    var s1 := Initial(stored).(selected := Some("4"));
    HandleCustomOutcome(s1, Some("300" + "," + "300"));
  }
}
