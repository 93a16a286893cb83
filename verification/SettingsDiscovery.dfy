/** configuration/appsettings_discovery.py: which settings files are loaded, and when that fails. */
module SettingsDiscovery {
  import opened Wrappers
  import opened AsciiText

  /** A file name in the settings directory as `pathlib` splits it; `suffix` includes the dot. */
  datatype File = File(stem: string, suffix: string)

  datatype Error = Ambiguous(stem: string, names: set<string>) | NoBaseFile

  const EXTENSIONS: seq<string> := [".toml", ".json"]
  const BASE_STEM := "appsettings"

  /** `_list_settings_files` on the files of the directory, in listing order. */
  function SettingsFiles(listing: seq<File>): (r: seq<File>)
    ensures forall f :: f in r <==> f in listing && f.suffix in EXTENSIONS
  {
    if listing == [] then []
    else (if listing[0].suffix in EXTENSIONS then [listing[0]] else []) + SettingsFiles(listing[1..])
  }

  function Matching(available: seq<File>, stem: string): (r: seq<File>)
    ensures forall f :: f in r <==> f in available && Fold(f.stem) == Fold(stem)
  {
    if available == [] then []
    else (if Fold(available[0].stem) == Fold(stem) then [available[0]] else []) + Matching(available[1..], stem)
  }

  predicate OneStem(files: seq<File>) {
    forall f, g | f in files && g in files :: f.stem == g.stem
  }

  function Named(files: seq<File>): set<string> {
    set f | f in files :: f.stem + f.suffix
  }

  /** The first file with the extension. */
  function FirstWith(files: seq<File>, extension: string): (r: Option<File>)
    ensures r.Some? ==> r.value in files && r.value.suffix == extension
    ensures r.None? ==> forall f | f in files :: f.suffix != extension
  {
    if files == [] then None
    else if files[0].suffix == extension then Some(files[0])
    else FirstWith(files[1..], extension)
  }

  /** `_resolve_unique_settings_file` */
  function Resolve(available: seq<File>, stem: string): Result<Option<File>, Error> {
    var matches := Matching(available, stem);
    if matches == [] then Ok(None)
    else if !OneStem(matches) then Err(Ambiguous(stem, Named(matches)))
    else
      var toml := FirstWith(matches, EXTENSIONS[0]);
      Ok(if toml.Some? then toml else FirstWith(matches, EXTENSIONS[1]))
  }

  /** `require_base_appsettings_file` */
  function RequireBase(listing: seq<File>): Result<File, Error> {
    match Resolve(SettingsFiles(listing), BASE_STEM)
    case Err(e) => Err(e)
    case Ok(None) => Err(NoBaseFile)
    case Ok(Some(f)) => Ok(f)
  }

  /** `appsettings.{environment}` */
  function OverlayStem(environment: string): string {
    BASE_STEM + "." + environment
  }

  // ---------------------------------------------------------------- what is found in the directory

  /** A settings file in the directory whose stem is `stem` in some casing. */
  predicate Spells(listing: seq<File>, f: File, stem: string) {
    f in listing && f.suffix in EXTENSIONS && Fold(f.stem) == Fold(stem)
  }

  ghost predicate Absent(listing: seq<File>, stem: string) {
    forall f | f in listing :: !Spells(listing, f, stem)
  }

  /** Two differently cased spellings of the stem. */
  ghost predicate TwoSpellings(listing: seq<File>, stem: string) {
    exists f, g :: Spells(listing, f, stem) && Spells(listing, g, stem) && f.stem != g.stem
  }

  /** `f` spells the stem, in its only casing, and is not a .json file beside a .toml file. */
  ghost predicate Chosen(listing: seq<File>, f: File, stem: string) {
    && Spells(listing, f, stem)
    && forall g | Spells(listing, g, stem) :: g.stem == f.stem && (f.suffix == ".json" ==> g.suffix != ".toml")
  }

  lemma MatchingSpells(listing: seq<File>, stem: string)
    ensures forall f :: f in Matching(SettingsFiles(listing), stem) <==> Spells(listing, f, stem)
    ensures Matching(SettingsFiles(listing), stem) == [] <==> Absent(listing, stem)
  {
    var matches := Matching(SettingsFiles(listing), stem);
    if matches != [] {
      assert matches[0] in matches;
    }
  }

  lemma AmbiguousExactlyWhen(listing: seq<File>, stem: string)
    ensures Resolve(SettingsFiles(listing), stem).Err? <==> TwoSpellings(listing, stem)
  {
    MatchingSpells(listing, stem);
    var matches := Matching(SettingsFiles(listing), stem);
    assert OneStem(matches) <==> !TwoSpellings(listing, stem);
  }

  /** An ambiguity error names the stem and every file that spells it. */
  lemma AmbiguityNames(listing: seq<File>, stem: string)
    ensures var r := Resolve(SettingsFiles(listing), stem);
      r.Err? ==>
        && r.error.Ambiguous? && r.error.stem == stem
        && forall name :: name in r.error.names <==> exists f :: Spells(listing, f, stem) && name == f.stem + f.suffix
  {
    MatchingSpells(listing, stem);
  }

  lemma ResolvedIsChosen(listing: seq<File>, stem: string)
    ensures Resolve(SettingsFiles(listing), stem) == Ok(None) <==> Absent(listing, stem)
    ensures var r := Resolve(SettingsFiles(listing), stem);
      r.Ok? && r.value.Some? ==> Chosen(listing, r.value.value, stem)
  {
    MatchingSpells(listing, stem);
    var matches := Matching(SettingsFiles(listing), stem);
    if matches != [] {
      assert Spells(listing, matches[0], stem) && matches[0].suffix in EXTENSIONS;
    }
  }

  /** There is one chosen file at most. */
  lemma ChosenIsResolved(listing: seq<File>, f: File, stem: string)
    requires Chosen(listing, f, stem)
    ensures Resolve(SettingsFiles(listing), stem) == Ok(Some(f))
  {
    AmbiguousExactlyWhen(listing, stem);
    ResolvedIsChosen(listing, stem);
    var g := Resolve(SettingsFiles(listing), stem).value.value;
    assert Spells(listing, g, stem);
    assert f.stem == g.stem && f.suffix == g.suffix;
  }

  /** What a stem resolves to, in terms of the directory: an error, nothing, or the one chosen file. */
  lemma ResolveChoice(listing: seq<File>, stem: string)
    ensures Resolve(SettingsFiles(listing), stem).Err? <==> TwoSpellings(listing, stem)
    ensures Resolve(SettingsFiles(listing), stem) == Ok(None) <==> Absent(listing, stem)
    ensures forall f :: Resolve(SettingsFiles(listing), stem) == Ok(Some(f)) <==> Chosen(listing, f, stem)
  {
    AmbiguousExactlyWhen(listing, stem);
    ResolvedIsChosen(listing, stem);
    forall f | Chosen(listing, f, stem) ensures Resolve(SettingsFiles(listing), stem) == Ok(Some(f)) {
      ChosenIsResolved(listing, f, stem);
    }
  }

  type Load = Result<seq<File>, Error>

  /** The files of a load: the given base or the one chosen, then the chosen overlay unless there is none. */
  ghost predicate FilesFit(listing: seq<File>, environment: string, baseFile: Option<File>, r: Load) {
    r.Ok? ==>
      && 1 <= |r.value| <= 2
      && (if baseFile.Some? then r.value[0] == baseFile.value else Chosen(listing, r.value[0], BASE_STEM))
      && (if |r.value| == 2 then Chosen(listing, r.value[1], OverlayStem(environment))
          else Absent(listing, OverlayStem(environment)))
  }

  /** The error of a load, the first when there are several: missing or ambiguous base, ambiguous overlay. */
  ghost predicate ErrorFits(listing: seq<File>, environment: string, baseFile: Option<File>, r: Load) {
    var overlay := OverlayStem(environment);
    && (r == Err(NoBaseFile) <==> baseFile.None? && Absent(listing, BASE_STEM))
    && (r.Err? && r.error.Ambiguous? && r.error.stem == BASE_STEM <==> baseFile.None? && TwoSpellings(listing, BASE_STEM))
    && (r.Err? && r.error.Ambiguous? && r.error.stem == overlay <==>
          && TwoSpellings(listing, overlay)
          && (baseFile.None? ==> !Absent(listing, BASE_STEM) && !TwoSpellings(listing, BASE_STEM)))
    && (r.Err? && r.error.Ambiguous? ==> forall name ::
          name in r.error.names <==> exists f :: Spells(listing, f, r.error.stem) && name == f.stem + f.suffix)
  }

  lemma CollectedFiles(listing: seq<File>, environment: string, baseFile: Option<File>)
    ensures FilesFit(listing, environment, baseFile, CollectSpec(listing, environment, baseFile))
  {
    ResolvedIsChosen(listing, BASE_STEM);
    ResolvedIsChosen(listing, OverlayStem(environment));
  }

  lemma CollectErrors(listing: seq<File>, environment: string, baseFile: Option<File>)
    ensures ErrorFits(listing, environment, baseFile, CollectSpec(listing, environment, baseFile))
  {
    assert |BASE_STEM| < |OverlayStem(environment)|;
    AmbiguousExactlyWhen(listing, BASE_STEM);
    AmbiguousExactlyWhen(listing, OverlayStem(environment));
    ResolvedIsChosen(listing, BASE_STEM);
    AmbiguityNames(listing, BASE_STEM);
    AmbiguityNames(listing, OverlayStem(environment));
  }

  /** `collect_appsettings_files`: the overlay is appended to the list that starts with the base. */
  method Collect(listing: seq<File>, environment: string, baseFile: Option<File>) returns (r: Load)
    ensures r == CollectSpec(listing, environment, baseFile)
    ensures FilesFit(listing, environment, baseFile, r)
    ensures ErrorFits(listing, environment, baseFile, r)
  {
    CollectedFiles(listing, environment, baseFile);
    CollectErrors(listing, environment, baseFile);
    var available := SettingsFiles(listing);
    var base := baseFile;
    if base.None? {
      var found := Resolve(available, BASE_STEM);
      if found.Err? {
        return Err(found.error);
      }
      base := found.value;
    }
    if base.None? {
      return Err(NoBaseFile);
    }
    var files := [base.value];
    var overlay := Resolve(available, OverlayStem(environment));
    if overlay.Err? {
      return Err(overlay.error);
    }
    if overlay.value.Some? {
      files := files + [overlay.value.value];
      assert files == [base.value, overlay.value.value];
    }
    return Ok(files);
  }

  function CollectSpec(listing: seq<File>, environment: string, baseFile: Option<File>): Load {
    var base := if baseFile.Some? then Ok(baseFile.value) else RequireBase(listing);
    var overlay := Resolve(SettingsFiles(listing), OverlayStem(environment));
    if base.Err? then Err(base.error)
    else if overlay.Err? then Err(overlay.error)
    else if overlay.value.None? then Ok([base.value])
    else Ok([base.value, overlay.value.value])
  }

  // ---------------------------------------------------------------- what the choice depends on

  /** The same directory, listed in some other order. */
  ghost predicate SameDirectory(a: seq<File>, b: seq<File>) {
    forall f :: f in a <==> f in b
  }

  lemma SameFirstWith(a: seq<File>, b: seq<File>, extension: string)
    requires SameDirectory(a, b) && OneStem(a)
    ensures FirstWith(a, extension) == FirstWith(b, extension)
  {
    var x, y := FirstWith(a, extension), FirstWith(b, extension);
    if x.Some? {
      assert x.value in b;
    }
    if y.Some? {
      assert y.value in a;
    }
  }

  lemma ResolveIgnoresOrder(a: seq<File>, b: seq<File>, stem: string)
    requires SameDirectory(a, b)
    ensures Resolve(a, stem) == Resolve(b, stem)
  {
    var x, y := Matching(a, stem), Matching(b, stem);
    assert SameDirectory(x, y);
    if x != [] {
      assert x[0] in y;
    }
    if y != [] {
      assert y[0] in x;
    }
    assert OneStem(x) == OneStem(y);
    assert Named(x) == Named(y);
    if OneStem(x) {
      SameFirstWith(x, y, EXTENSIONS[0]);
      SameFirstWith(x, y, EXTENSIONS[1]);
    }
  }

  /** Base and overlay, or the error, do not depend on the order the directory is listed in. */
  lemma DiscoveryIgnoresListingOrder(a: seq<File>, b: seq<File>, environment: string, baseFile: Option<File>)
    requires SameDirectory(a, b)
    ensures RequireBase(a) == RequireBase(b)
    ensures CollectSpec(a, environment, baseFile) == CollectSpec(b, environment, baseFile)
  {
    assert SameDirectory(SettingsFiles(a), SettingsFiles(b));
    ResolveIgnoresOrder(SettingsFiles(a), SettingsFiles(b), BASE_STEM);
    ResolveIgnoresOrder(SettingsFiles(a), SettingsFiles(b), OverlayStem(environment));
  }

  lemma ResolvedSpells(listing: seq<File>, stem: string)
    ensures var r := Resolve(SettingsFiles(listing), stem);
      r.Ok? && r.value.Some? ==> |Fold(r.value.value.stem)| == |stem|
  {
    ResolveChoice(listing, stem);
  }

  /**
   The base never doubles as the overlay, for any environment name at all: the files of one load
   are the base and at most one other.
   */
  lemma NeverTheSameFileTwice(listing: seq<File>, environment: string)
    ensures var r := CollectSpec(listing, environment, None);
      r.Ok? ==> 1 <= |r.value| <= 2 && (|r.value| == 2 ==> r.value[0] != r.value[1])
  {
    var base := Resolve(SettingsFiles(listing), BASE_STEM);
    var overlay := Resolve(SettingsFiles(listing), OverlayStem(environment));
    ResolvedSpells(listing, BASE_STEM);
    ResolvedSpells(listing, OverlayStem(environment));
    if base.Ok? && base.value.Some? && overlay.Ok? && overlay.value.Some? {
      assert |Fold(overlay.value.value.stem)| > |Fold(base.value.value.stem)|;
    }
  }

  /**
   A base file given by the caller is not checked: it is loaded twice exactly when it spells the
   overlay's stem, nothing spells it in another casing, and it is not the .json file beside a .toml
   file. A file is known by its name, so the given base has to come from the same directory.
   */
  lemma GivenBaseLoadedTwiceExactlyWhen(listing: seq<File>, environment: string, base: File)
    ensures CollectSpec(listing, environment, Some(base)) == Ok([base, base]) <==>
      && Spells(listing, base, OverlayStem(environment))
      && forall g | Spells(listing, g, OverlayStem(environment)) ::
           g.stem == base.stem && (base.suffix == ".json" ==> g.suffix != ".toml")
  {
    ResolveChoice(listing, OverlayStem(environment));
    var overlay := Resolve(SettingsFiles(listing), OverlayStem(environment));
    if overlay.Ok? && overlay.value.Some? {
      assert [base, overlay.value.value][1] == overlay.value.value;
    }
    assert overlay == Ok(Some(base)) <==> Chosen(listing, base, OverlayStem(environment));
  }

  /** The overlay file given as the base is loaded twice. */
  lemma OverlayGivenAsBase()
    ensures var base, overlay := File("appsettings", ".toml"), File("appsettings.Prod", ".toml");
      CollectSpec([base, overlay], "prod", Some(overlay)) == Ok([overlay, overlay])
  {
    var base, overlay := File("appsettings", ".toml"), File("appsettings.Prod", ".toml");
    assert Fold("appsettings.Prod") == Fold(OverlayStem("prod"));
    assert |Fold(base.stem)| < |Fold(OverlayStem("prod"))|;
    GivenBaseLoadedTwiceExactlyWhen([base, overlay], "prod", overlay);
  }

  /**
   `load_configuration` passes the base it required, so its loads are those without a given base,
   and load no file twice.
   */
  lemma LoaderAgrees(listing: seq<File>, environment: string)
    requires RequireBase(listing).Ok?
    ensures var base := RequireBase(listing).value;
      && CollectSpec(listing, environment, Some(base)) == CollectSpec(listing, environment, None)
      && CollectSpec(listing, environment, Some(base)) != Ok([base, base])
  {
    NeverTheSameFileTwice(listing, environment);
  }
}
