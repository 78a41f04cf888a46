/**
  `AppComponent` as an object: the catalog, the selected id, the browser's
  `localStorage` and the list of processed files are fields that the
  handlers assign. Each handler is specified by the transition of SizeStore
  or FileList that it carries out.
*/
module App {
  import opened Wrappers
  import CustomSize
  import SizeStore
  import FileList

  class AppComponent {
    var sizeOptions: seq<SizeStore.SizeOption>
    var selectedSize: Option<string>
    /** The contents of `localStorage`. */
    var storage: map<string, string>
    var files: seq<FileList.FileWithPreview>

    /** The catalog keeps its shape: presets as declared, the custom slot valid. */
    predicate Valid()
      reads this
    {
      SizeStore.WellFormed(sizeOptions)
    }

    /** The size-related fields as a value. */
    function Snapshot(): SizeStore.Session
      reads this
    {
      SizeStore.Session(sizeOptions, selectedSize, storage)
    }

    /**
      The field initialisers, with `stored` being what `localStorage` holds
      when the page loads. The constructor body is `Hydrate`.
    */
    constructor (stored: map<string, string>)
      ensures Valid()
      ensures Snapshot() == SizeStore.Initial(stored) && files == []
    {
      sizeOptions := SizeStore.InitialOptions;
      selectedSize := None;
      storage := stored;
      files := [];
    }

    /**
      The constructor body: restore the stored id, then replay a stored
      custom size. `threw` is the TypeError of a stored text without digits,
      which aborts the constructor.
    */
    method Hydrate() returns (threw: bool)
      requires Valid()
      modifies this
      ensures Valid() && files == old(files)
      ensures SizeStore.Step(Snapshot(), threw) == SizeStore.Hydrate(old(Snapshot()))
    {
      var previousValue := if SizeStore.SelectedResizeOption in storage
                           then Some(storage[SizeStore.SelectedResizeOption]) else None;
      // `filter(...)` returns an array, which is always truthy
      if previousValue.Some? {
        selectedSize := previousValue;
      }
      var previousCustomSize := if SizeStore.CustomSizeKey in storage
                                then Some(storage[SizeStore.CustomSizeKey]) else None;
      threw := false;
      if previousCustomSize.Some? {
        threw := HandleCustomSize(previousCustomSize);
      }
    }

    /** `clearStorage`. */
    method ClearStorage()
      modifies this
      ensures Snapshot() == SizeStore.Clear(old(Snapshot())) && files == old(files)
    {
      storage := map[];
    }

    /** `selectOption(option)`. */
    method SelectOption(option: SizeStore.SizeOption)
      modifies this
      ensures Snapshot() == SizeStore.Select(old(Snapshot()), option)
      ensures files == old(files)
    {
      selectedSize := Some(option.id);
      storage := storage[SizeStore.SelectedResizeOption := option.id];
    }

    /** `sizeButtonClick(option)`; `answer` is what the custom-size prompt returns. */
    method SizeButtonClick(option: SizeStore.SizeOption, answer: Option<string>) returns (threw: bool)
      requires Valid()
      modifies this
      ensures Valid() && files == old(files)
      ensures SizeStore.Step(Snapshot(), threw) == SizeStore.ButtonClick(old(Snapshot()), option, answer)
    {
      threw := false;
      if option.isCustom {
        threw := CreateCustomSize(answer);
        if threw {
          return;
        }
      }
      SelectOption(option);
    }

    /** `createCustomSize`, with the prompt's result passed in. */
    method CreateCustomSize(customSize: Option<string>) returns (threw: bool)
      requires Valid()
      modifies this
      ensures Valid() && files == old(files)
      ensures SizeStore.Step(Snapshot(), threw) == SizeStore.HandleCustom(old(Snapshot()), customSize)
    {
      threw := HandleCustomSize(customSize);
    }

    /** `handleCustomSize(sz)`. */
    method HandleCustomSize(sz: Option<string>) returns (threw: bool)
      requires Valid()
      modifies this
      ensures Valid() && files == old(files)
      ensures SizeStore.Step(Snapshot(), threw) == SizeStore.HandleCustom(old(Snapshot()), sz)
    {
      threw := false;
      if sz.Some? {
        var parsedCustomSize := ParseCustomSize(sz.value);
        if parsedCustomSize.NoMatch? {
          threw := true;
          return;
        }
        if !parsedCustomSize.Size? {
          return;
        }
        var i := SizeStore.CustomIndex(sizeOptions);
        sizeOptions := sizeOptions[i := sizeOptions[i].(resizeHeight := Some(parsedCustomSize.height),
                                                        resizeWidth := Some(parsedCustomSize.width))];
        storage := storage[SizeStore.CustomSizeKey := sz.value];
      }
    }

    /**
      `parseCustomSize(sz)`: the parse, and on a range error the fallback
      to the first preset. `NoMatch` stands for the TypeError thrown on a
      null match, before anything changes.
    */
    method ParseCustomSize(sz: string) returns (r: CustomSize.ParseResult)
      requires Valid()
      modifies this
      ensures Valid() && files == old(files)
      ensures SizeStore.Parsed(Snapshot(), r) == SizeStore.ParseCustom(old(Snapshot()), sz)
    {
      r := CustomSize.Parse(sz);
      if r.OutOfRange? {
        SelectOption(sizeOptions[0]);
      }
    }

    /**
      `prepareFilesList(files)`: each image file that decodes and whose
      preview `atob` accepts appends one record sized against the option
      selected at that moment. `encodable` is the set of MIME types the
      browser's canvas can encode.
    */
    method PrepareFilesList(encodable: set<string>, items: seq<FileList.FileItem>)
      requires Valid()
      modifies this
      ensures Snapshot() == old(Snapshot())
      ensures files == old(files) + FileList.Processed(sizeOptions, selectedSize, encodable, items)
    {
      for idx := 0 to |items|
        invariant Snapshot() == old(Snapshot())
        invariant files == old(files) + FileList.Processed(sizeOptions, selectedSize, encodable, items[..idx])
      {
        assert items[..idx + 1][..idx] == items[..idx];
        var item := items[idx];
        var record := FileList.FileStep(sizeOptions, selectedSize, encodable, item);
        if record.Some? {
          files := files + [record.value];
        }
      }
      assert items[..|items|] == items;
    }
  }

  /**
    A session driven through the component: load the page from `stored`,
    click the custom option and enter "250,350". The custom target becomes
    250 by 350 and is selected, and the stored record reloads to the same
    session.
  */
  method CustomSizeSession(stored: map<string, string>) returns (app: AppComponent)
    requires SizeStore.CustomSizeKey !in stored && SizeStore.SelectedResizeOption !in stored
    ensures app.Valid() && app.selectedSize == Some("4")
    ensures app.sizeOptions[3].resizeWidth == Some(250) && app.sizeOptions[3].resizeHeight == Some(350)
    ensures SizeStore.Reload(app.storage).after == app.Snapshot()
  {
    app := new AppComponent(stored);
    var threw := app.Hydrate();
    assert !threw && app.selectedSize.None?;
    CustomSize.ParseExampleWidthHeight();
    threw := app.SizeButtonClick(app.sizeOptions[3], Some("250" + "," + "350"));
    assert !threw && app.selectedSize == Some("4");
    SizeStore.ButtonClickPersists(SizeStore.Initial(stored), SizeStore.CustomSlot, Some("250" + "," + "350"));
    SizeStore.ReloadRestores(app.Snapshot());
  }
}
