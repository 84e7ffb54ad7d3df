/**
 * The model picker of the chat page (streamlit_app.py): a catalog of model
 * names grouped by category is flattened into the entries of one drop-down,
 * and the entry the user picks is decoded back into a model name, or into
 * nothing when a category header was picked.
 */
module ModelCatalog {
  import opened Wrappers
  import opened PyStr

  /** One key of `model_options` with its list of model names. */
  datatype Category = Category(name: string, models: seq<string>)

  /** `model_options`, as its categories in the dictionary's insertion (= iteration) order. */
  type Catalog = seq<Category>

  /** The catalog the page ships with. */
  const ModelOptions: Catalog := [
    Category("OpenAI Chat Completion Models", [
      "gpt-4.1", "gpt-4.1-mini", "gpt-4.1-nano", "o4-mini", "o3-mini", "o3",
      "o1-mini", "o1-preview", "gpt-4o-mini", "gpt-4o-mini-2024-07-18",
      "gpt-4o", "gpt-4o-2024-08-06", "gpt-4o-2024-05-13", "gpt-4-turbo",
      "gpt-4-turbo-preview", "gpt-4-0125-preview", "gpt-4-1106-preview",
      "gpt-3.5-turbo-1106", "gpt-3.5-turbo", "gpt-3.5-turbo-0301",
      "gpt-3.5-turbo-0613", "gpt-3.5-turbo-16k", "gpt-3.5-turbo-16k-0613",
      "gpt-4", "gpt-4-0314", "gpt-4-0613", "gpt-4-32k", "gpt-4-32k-0314",
      "gpt-4-32k-0613"]),
    Category("OpenAI Vision Models", [
      "gpt-4o", "gpt-4-turbo", "gpt-4-vision-preview"])
  ]

  /** The blue small diamond (U+1F539) that marks a category header. */
  const Bullet: char := '\U{1F539}'

  /** The two em spaces (U+2003) that mark a selectable model entry. */
  const Indent: string := "\U{2003}\U{2003}"

  /** The display entry of a category: the bullet, a space, the category. */
  function Header(name: string): string {
    [Bullet, ' '] + name
  }

  /** The display entry of a model: two em spaces (U+2003), the model name. */
  function Entry(model: string): string {
    Indent + model
  }

  /** The entries of a category's models, in list order. */
  function Entries(models: seq<string>): seq<string>
    decreases |models|
  {
    if models == [] then []
    else Entries(models[..|models| - 1]) + [Entry(models[|models| - 1])]
  }

  /** A category's header followed by its models' entries. */
  function Section(c: Category): seq<string> {
    [Header(c.name)] + Entries(c.models)
  }

  /** `model_display`: the sections of all categories, in catalog order. */
  function Flatten(catalog: Catalog): seq<string>
    decreases |catalog|
  {
    if catalog == [] then []
    else Flatten(catalog[..|catalog| - 1]) + Section(catalog[|catalog| - 1])
  }

  /** The number of model names over all categories (a name listed twice is counted twice). */
  function ModelCount(catalog: Catalog): nat
    decreases |catalog|
  {
    if catalog == [] then 0
    else ModelCount(catalog[..|catalog| - 1]) + |catalog[|catalog| - 1].models|
  }

  /** Where the header of category `i` stands in the flattened list. */
  function HeaderIndex(catalog: Catalog, i: nat): nat
    requires i <= |catalog|
  {
    i + ModelCount(catalog[..i])
  }

  /** Every model name is trimmed (no whitespace at either end), as all of `ModelOptions` are. */
  predicate CleanNames(catalog: Catalog) {
    forall i, j :: 0 <= i < |catalog| && 0 <= j < |catalog[i].models| ==> Trimmed(catalog[i].models[j])
  }

  /** The flattening loop of the page, building the list entry by entry. */
  method BuildDisplay(catalog: Catalog) returns (display: seq<string>)
    ensures display == Flatten(catalog)
  {
    display := [];
    var i := 0;
    while i < |catalog|
      invariant 0 <= i <= |catalog|
      invariant display == Flatten(catalog[..i])
    {
      var category := catalog[i];
      display := display + [Header(category.name)];
      var j := 0;
      while j < |category.models|
        invariant 0 <= j <= |category.models|
        invariant display == Flatten(catalog[..i]) + [Header(category.name)] + Entries(category.models[..j])
      {
        assert category.models[..j + 1][..j] == category.models[..j];
        display := display + [Entry(category.models[j])];
        j := j + 1;
      }
      assert category.models[..j] == category.models;
      assert catalog[..i + 1][..i] == catalog[..i];
      i := i + 1;
    }
    assert catalog[..i] == catalog;
  }

  /**
   * Decoding the picked entry: an entry that starts with two em spaces (U+2003) yields
   * its stripped text, anything else (a category header) yields no model.
   */
  function Decode(selected: string): (r: Option<string>)
    ensures r.Some? <==> StartsWith(selected, Indent)
    ensures r.Some? ==> Trimmed(r.value) && |r.value| <= |selected| - |Indent|
  {
    if StartsWith(selected, Indent) then Some(Strip(selected)) else None
  }

  /**
   * Decoding a model's entry yields the stripped name, so it gives back the
   * name itself exactly when the name is clean.
   */
  lemma DecodeEntry(model: string)
    ensures Decode(Entry(model)) == Some(Strip(model))
    ensures Decode(Entry(model)) == Some(model) <==> Trimmed(model)
  {
    assert Entry(model)[..|Indent|] == Indent;
    StripStartSkipsSpace(Indent, model);
  }

  /** A header never starts with the two-em-space indent, so it never decodes to a model. */
  lemma DecodeHeader(name: string)
    ensures Decode(Header(name)) == None
  {
    assert Header(name)[0] == Bullet;
  }

  lemma {:induction false} EntriesLayout(models: seq<string>)
    ensures |Entries(models)| == |models|
    ensures forall j :: 0 <= j < |models| ==> Entries(models)[j] == Entry(models[j])
    decreases |models|
  {
    if models != [] {
      EntriesLayout(models[..|models| - 1]);
    }
  }

  /** The flattened list holds one entry per category plus one per model. */
  lemma {:induction false} FlattenLength(catalog: Catalog)
    ensures |Flatten(catalog)| == |catalog| + ModelCount(catalog)
    decreases |catalog|
  {
    if catalog != [] {
      FlattenLength(catalog[..|catalog| - 1]);
      EntriesLayout(catalog[|catalog| - 1].models);
    }
  }

  /**
   * The layout of the flattened list: category `i`'s header stands at
   * `HeaderIndex(catalog, i)` and its models follow it directly, in their
   * list order.
   */
  lemma {:induction false} FlattenLayout(catalog: Catalog, i: nat)
    requires i < |catalog|
    ensures HeaderIndex(catalog, i) + |catalog[i].models| < |Flatten(catalog)|
    ensures Flatten(catalog)[HeaderIndex(catalog, i)] == Header(catalog[i].name)
    ensures forall j :: 0 <= j < |catalog[i].models| ==>
      Flatten(catalog)[HeaderIndex(catalog, i) + 1 + j] == Entry(catalog[i].models[j])
    decreases |catalog|
  {
    var n := |catalog| - 1;
    var init := catalog[..n];
    assert Flatten(catalog) == Flatten(init) + Section(catalog[n]);
    FlattenLength(catalog);
    FlattenLength(init);
    if i == n {
      assert catalog[..i] == init;
      EntriesLayout(catalog[n].models);
    } else {
      FlattenLayout(init, i);
      assert catalog[..i] == init[..i];
    }
  }

  /**
   * Every position of the flattened list belongs to one category `i`: it is
   * that category's header (`j == -1`) or the entry of its `j`-th model.
   */
  lemma {:induction false} Locate(catalog: Catalog, k: nat) returns (i: nat, j: int)
    requires k < |Flatten(catalog)|
    ensures i < |catalog| && -1 <= j < |catalog[i].models|
    ensures k == HeaderIndex(catalog, i) + 1 + j
    decreases |catalog|
  {
    var n := |catalog| - 1;
    var init := catalog[..n];
    assert Flatten(catalog) == Flatten(init) + Section(catalog[n]);
    FlattenLength(init);
    EntriesLayout(catalog[n].models);
    if k < |Flatten(init)| {
      i, j := Locate(init, k);
      assert catalog[..i] == init[..i];
    } else {
      assert catalog[..n] == init;
      i, j := n, k - |Flatten(init)| - 1;
    }
  }

  /**
   * Decoding any entry of a well-formed catalog's list: a header yields no
   * model, and a model entry yields exactly the model listed at that place.
   */
  lemma DecodeDisplay(catalog: Catalog, k: nat) returns (i: nat, j: int)
    requires CleanNames(catalog)
    requires k < |Flatten(catalog)|
    ensures i < |catalog| && -1 <= j < |catalog[i].models|
    ensures k == HeaderIndex(catalog, i) + 1 + j
    ensures j == -1 ==> Decode(Flatten(catalog)[k]) == None
    ensures j >= 0 ==> Decode(Flatten(catalog)[k]) == Some(catalog[i].models[j])
  {
    i, j := Locate(catalog, k);
    FlattenLayout(catalog, i);
    if j == -1 {
      assert Flatten(catalog)[k] == Header(catalog[i].name);
      DecodeHeader(catalog[i].name);
    } else {
      var model := catalog[i].models[j];
      assert Flatten(catalog)[k] == Entry(model);
      assert Trimmed(model);
      DecodeEntry(model);
    }
  }

  /** Every clean model name of a catalog can be picked: its entry decodes to that name. */
  lemma Selectable(catalog: Catalog, i: nat, j: nat)
    requires i < |catalog| && j < |catalog[i].models|
    requires Trimmed(catalog[i].models[j])
    ensures HeaderIndex(catalog, i) + 1 + j < |Flatten(catalog)|
    ensures Flatten(catalog)[HeaderIndex(catalog, i) + 1 + j] == Entry(catalog[i].models[j])
    ensures Decode(Flatten(catalog)[HeaderIndex(catalog, i) + 1 + j]) == Some(catalog[i].models[j])
  {
    FlattenLayout(catalog, i);
    var model := catalog[i].models[j];
    assert Flatten(catalog)[HeaderIndex(catalog, i) + 1 + j] == Entry(model);
    DecodeEntry(model);
  }

  /** Headers stand in catalog order: category `a`'s section ends before category `b`'s header when `a < b`. */
  lemma {:induction false} HeaderIndexGrows(catalog: Catalog, a: nat, b: nat)
    requires a < b <= |catalog|
    ensures HeaderIndex(catalog, a) + |catalog[a].models| < HeaderIndex(catalog, b)
    decreases b
  {
    assert catalog[..b][..b - 1] == catalog[..b - 1];
    if a < b - 1 {
      HeaderIndexGrows(catalog, a, b - 1);
    } else {
      assert catalog[..b - 1] == catalog[..a];
    }
  }

  /**
   * A model listed under two categories is shown twice: as two distinct
   * entries of the list, both decoding to the same name when it is clean.
   */
  lemma RepeatedModel(catalog: Catalog, i1: nat, j1: nat, i2: nat, j2: nat)
    requires i1 < i2 < |catalog|
    requires j1 < |catalog[i1].models| && j2 < |catalog[i2].models|
    requires catalog[i1].models[j1] == catalog[i2].models[j2]
    ensures HeaderIndex(catalog, i1) + 1 + j1 < HeaderIndex(catalog, i2) + 1 + j2 < |Flatten(catalog)|
    ensures Flatten(catalog)[HeaderIndex(catalog, i1) + 1 + j1] == Entry(catalog[i1].models[j1])
    ensures Flatten(catalog)[HeaderIndex(catalog, i2) + 1 + j2] == Entry(catalog[i1].models[j1])
    ensures Trimmed(catalog[i1].models[j1]) ==> Decode(Entry(catalog[i1].models[j1])) == Some(catalog[i1].models[j1])
  {
    HeaderIndexGrows(catalog, i1, i2);
    FlattenLayout(catalog, i1);
    FlattenLayout(catalog, i2);
    DecodeEntry(catalog[i1].models[j1]);
  }

  // The shipped names are checked ten at a time, which keeps each check small.
  lemma ChatModelsCleanHead()
    ensures forall j :: 0 <= j < 10 ==> Trimmed(ModelOptions[0].models[j])
  {
  }

  lemma ChatModelsCleanMiddle()
    ensures forall j :: 10 <= j < 20 ==> Trimmed(ModelOptions[0].models[j])
  {
  }

  lemma ChatModelsCleanEnd()
    ensures forall j :: 20 <= j < 29 ==> Trimmed(ModelOptions[0].models[j])
  {
  }

  /** The shipped catalog has clean model names only. */
  lemma ModelOptionsCleanNames()
    ensures CleanNames(ModelOptions)
  {
    ChatModelsCleanHead();
    ChatModelsCleanMiddle();
    ChatModelsCleanEnd();
  }

  /** The shipped catalog lists 29 + 3 models, so its list has 34 entries; the second header is at 30. */
  lemma ModelOptionsLength()
    ensures |Flatten(ModelOptions)| == 34
    ensures HeaderIndex(ModelOptions, 0) == 0 && HeaderIndex(ModelOptions, 1) == 30
  {
    FlattenLength(ModelOptions);
    assert ModelOptions[..1] == [ModelOptions[0]];
    assert ModelCount(ModelOptions) == 32;
  }

  /** "gpt-4o" is listed under both shipped categories. */
  lemma Gpt4oListedTwice()
    ensures ModelOptions[0].models[10] == ModelOptions[1].models[0] == "gpt-4o"
  {
  }

  /**
   * "gpt-4o", listed under both categories, appears as two distinct entries
   * (positions 11 and 31) of the shipped list, and both decode to that model.
   */
  lemma ModelOptionsDuplicate()
    ensures |Flatten(ModelOptions)| == 34
    ensures Flatten(ModelOptions)[11] == Flatten(ModelOptions)[31] == Entry("gpt-4o")
    ensures Entry("gpt-4o") == "\U{2003}\U{2003}gpt-4o"
    ensures Decode(Flatten(ModelOptions)[11]) == Some("gpt-4o") && Decode(Flatten(ModelOptions)[31]) == Some("gpt-4o")
  {
    ModelOptionsLength();
    Gpt4oListedTwice();
    ChatModelsCleanMiddle();
    RepeatedModel(ModelOptions, 0, 10, 1, 0);
  }

  /** An entry indented with two ordinary spaces instead of the em spaces is not a model entry. */
  lemma AsciiIndentIsNoEntry()
    ensures Decode("  gpt-4o") == None
  {
    assert "  gpt-4o"[0] != Indent[0];
  }
}
