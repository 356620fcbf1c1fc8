/**
 * Font path search: the first existing file of a preference list wins. The
 * file system is the predicate `present`.
 */
module Fonts {
  import opened Wrappers

  type Present = string -> bool

  /** The first path of `paths` that is present, if any. */
  function FirstExisting(paths: seq<string>, present: Present): (r: Option<string>)
    ensures r.Some? ==> r.value in paths && present(r.value)
  {
    if paths == [] then None
    else if present(paths[0]) then Some(paths[0])
    else FirstExisting(paths[1..], present)
  }

  /** The search yields a present path with no present path before it, and nothing only when no path is present. */
  lemma {:induction false} FirstExistingMeaning(paths: seq<string>, present: Present)
    ensures var r := FirstExisting(paths, present);
      (r.Some? ==> exists i :: (0 <= i < |paths| && paths[i] == r.value && present(paths[i]) &&
        forall j :: 0 <= j < i ==> !present(paths[j]))) &&
      (r.None? <==> forall i :: 0 <= i < |paths| ==> !present(paths[i]))
  {
    if paths != [] && !present(paths[0]) {
      var rest := paths[1..];
      FirstExistingMeaning(rest, present);
      assert forall i :: 1 <= i < |paths| ==> paths[i] == rest[i - 1];
      if FirstExisting(rest, present).Some? {
        var i :| 0 <= i < |rest| && rest[i] == FirstExisting(rest, present).value && present(rest[i]) &&
          forall j :: 0 <= j < i ==> !present(rest[j]);
        assert paths[i + 1] == rest[i];
      }
    }
  }

  /** The scan over a list of paths that returns (or breaks) at the first existing one. */
  method FindFirst(paths: seq<string>, present: Present) returns (found: Option<string>)
    ensures found == FirstExisting(paths, present)
  {
    found := None;
    var i := 0;
    while i < |paths|
      invariant 0 <= i <= |paths|
      invariant FirstExisting(paths, present) == FirstExisting(paths[i..], present)
    {
      assert paths[i..][1..] == paths[i + 1..];
      if present(paths[i]) {
        found := Some(paths[i]);
        return;
      }
      i := i + 1;
    }
  }

  /** The two fonts `load_cyrillic_font` tries, in order. */
  const MAC_FONTS: seq<string> := [
    "/System/Library/Fonts/Supplemental/Georgia.ttf",
    "/System/Library/Fonts/Supplemental/Times New Roman.ttf"
  ]

  /** `load_cyrillic_font`: the first Mac font present, or `None`. */
  method LoadCyrillicFont(present: Present) returns (path: Option<string>)
    ensures path == FirstExisting(MAC_FONTS, present)
  {
    path := FindFirst(MAC_FONTS, present);
  }

  /** The fonts the OCR renderer tries, in order (Linux, then macOS, then Windows). */
  const OCR_FONTS: seq<string> := [
    "/usr/share/fonts/truetype/dejavu/DejaVuSans.ttf",
    "/usr/share/fonts/truetype/liberation/LiberationSans-Regular.ttf",
    "/Library/Fonts/Arial Unicode.ttf",
    "/System/Library/Fonts/Supplemental/Arial Unicode.ttf",
    "C:/Windows/Fonts/arial.ttf",
    "C:/Windows/Fonts/times.ttf"
  ]

  /** A recommended font: its name and its candidate files. */
  datatype FontChoice = FontChoice(name: string, paths: seq<string>)

  /** The recommended fonts in order of preference; "Times New Roman" is listed twice. */
  const RECOMMENDED: seq<FontChoice> := [
    FontChoice("Times New Roman", ["/Library/Fonts/Times New Roman.ttf", "/Library/Fonts/TimesNewRomanPSMT.ttf"]),
    FontChoice("Georgia", ["/Library/Fonts/Georgia.ttf", "/System/Library/Fonts/Supplemental/Georgia.ttf"]),
    FontChoice("Palatino", ["/Library/Fonts/Palatino.ttc", "/System/Library/Fonts/Palatino.ttc"]),
    FontChoice("Arial", ["/Library/Fonts/Arial.ttf", "/Library/Fonts/Arial Unicode.ttf"]),
    FontChoice("DejaVu Serif", ["/usr/share/fonts/truetype/dejavu/DejaVuSerif.ttf"]),
    FontChoice("Times New Roman", ["C:/Windows/Fonts/times.ttf"])
  ]

  /**
   * A Python dictionary from font name to path, as its (name, path) items in
   * insertion order.
   */
  type FontDict = seq<(string, string)>

  /** The dictionary's names, in order. */
  function Names(d: FontDict): (ns: seq<string>)
    ensures |ns| == |d| && forall i :: 0 <= i < |d| ==> ns[i] == d[i].0
  {
    if d == [] then [] else [d[0].0] + Names(d[1..])
  }

  /** No name occurs twice. */
  predicate UniqueNames(d: FontDict)
  {
    forall i, j :: 0 <= i < j < |d| ==> d[i].0 != d[j].0
  }

  /** The value stored under `name`, if any. */
  function Get(d: FontDict, name: string): Option<string>
  {
    if d == [] then None
    else if d[0].0 == name then Some(d[0].1)
    else Get(d[1..], name)
  }

  /**
   * `d[name] = path`: an existing name keeps its position and takes the new
   * value; a new name is appended.
   */
  function Put(d: FontDict, name: string, path: string): (r: FontDict)
    ensures Get(r, name) == Some(path)
    ensures forall n :: n != name ==> Get(r, n) == Get(d, n)
  {
    if d == [] then [(name, path)]
    else if d[0].0 == name then [(name, path)] + d[1..]
    else [d[0]] + Put(d[1..], name, path)
  }

  /** An assignment keeps the order of the names: an existing name stays in place, a new one goes last. */
  lemma {:induction false} PutNames(d: FontDict, name: string, path: string)
    ensures Names(Put(d, name, path)) == if name in Names(d) then Names(d) else Names(d) + [name]
  {
    if d != [] && d[0].0 != name {
      PutNames(d[1..], name, path);
      assert Names(d) == [d[0].0] + Names(d[1..]);
      assert name in Names(d) <==> name in Names(d[1..]);
    }
  }

  /** The dictionary `check_font_availability` has built after the first fonts of the list. */
  function Available(fonts: seq<FontChoice>, present: Present): FontDict
  {
    if fonts == [] then []
    else
      var d := Available(fonts[..|fonts| - 1], present);
      var last := fonts[|fonts| - 1];
      match FirstExisting(last.paths, present)
        case Some(p) => Put(d, last.name, p)
        case None => d
  }

  /** `check_font_availability`: for each font in turn, its first existing path is stored under its name. */
  method CheckFontAvailability(fonts: seq<FontChoice>, present: Present) returns (available: FontDict)
    ensures available == Available(fonts, present)
  {
    available := [];
    for i := 0 to |fonts|
      invariant available == Available(fonts[..i], present)
    {
      assert fonts[..i + 1][..i] == fonts[..i];
      var font := fonts[i];
      for k := 0 to |font.paths|
        invariant FirstExisting(font.paths, present) == FirstExisting(font.paths[k..], present)
        invariant available == Available(fonts[..i], present)
      {
        assert font.paths[k..][1..] == font.paths[k + 1..];
        if present(font.paths[k]) {
          available := Put(available, font.name, font.paths[k]);
          break;
        }
      }
    }
    assert fonts[..|fonts|] == fonts;
  }

  /** A name is in the dictionary exactly when one of its entries has an existing path. */
  lemma {:induction false} AvailableNames(fonts: seq<FontChoice>, present: Present, name: string)
    ensures Get(Available(fonts, present), name).None? <==>
      forall i :: 0 <= i < |fonts| && fonts[i].name == name ==> FirstExisting(fonts[i].paths, present).None?
  {
    if fonts != [] {
      var n := |fonts| - 1;
      var init := fonts[..n];
      var d := Available(init, present);
      var last := fonts[n];
      assert Available(fonts, present) == match FirstExisting(last.paths, present)
        case Some(p) => Put(d, last.name, p)
        case None => d;
      AvailableNames(init, present, name);
      assert forall i :: 0 <= i < |init| ==> fonts[i] == init[i];
    }
  }

  /**
   * A later entry for a name overrides an earlier one: the name maps to the
   * first existing path of its last entry that has one.
   */
  lemma {:induction false} LastEntryWins(fonts: seq<FontChoice>, present: Present, i: nat)
    requires i < |fonts| && FirstExisting(fonts[i].paths, present).Some?
    requires forall j :: i < j < |fonts| && fonts[j].name == fonts[i].name ==> FirstExisting(fonts[j].paths, present).None?
    ensures Get(Available(fonts, present), fonts[i].name) == FirstExisting(fonts[i].paths, present)
  {
    var n := |fonts| - 1;
    var init := fonts[..n];
    var name := fonts[i].name;
    var d := Available(init, present);
    var last := fonts[n];
    var all := Available(fonts, present);
    if i < n {
      assert init[i] == fonts[i];
      forall j | i < j < |init| && init[j].name == init[i].name
        ensures FirstExisting(init[j].paths, present).None?
      {
        assert init[j] == fonts[j];
      }
      LastEntryWins(init, present, i);
      match FirstExisting(last.paths, present)
      case None =>
        assert all == d;
      case Some(p) =>
        assert last.name != name;
        assert all == Put(d, last.name, p);
        assert Get(all, name) == Get(d, name);
    } else {
      var p := FirstExisting(last.paths, present).value;
      assert all == Put(d, name, p);
    }
  }

  /** The dictionary never holds a name twice. */
  lemma {:induction false} AvailableUnique(fonts: seq<FontChoice>, present: Present)
    ensures UniqueNames(Available(fonts, present))
  {
    if fonts != [] {
      var init := fonts[..|fonts| - 1];
      AvailableUnique(init, present);
      var d := Available(init, present);
      var last := fonts[|fonts| - 1];
      if FirstExisting(last.paths, present).Some? {
        PutUnique(d, last.name, FirstExisting(last.paths, present).value);
      }
    }
  }

  lemma {:induction false} PutUnique(d: FontDict, name: string, path: string)
    requires UniqueNames(d)
    ensures UniqueNames(Put(d, name, path))
  {
    var r := Put(d, name, path);
    PutNames(d, name, path);
    forall i, j | 0 <= i < j < |r| ensures r[i].0 != r[j].0 {
      assert Names(r)[i] == r[i].0 && Names(r)[j] == r[j].0;
      assert forall k :: 0 <= k < |d| ==> Names(d)[k] == d[k].0;
    }
  }

  /** The font the image fallback picks: the first value of the dictionary, if any. */
  function FallbackFont(present: Present): Option<string>
  {
    var d := Available(RECOMMENDED, present);
    if d == [] then None else Some(d[0].1)
  }

  /** `next(iter(check_font_availability().values()), None)`. */
  method FindFallbackFont(present: Present) returns (path: Option<string>)
    ensures path == FallbackFont(present)
  {
    var availableFonts := CheckFontAvailability(RECOMMENDED, present);
    path := if availableFonts == [] then None else Some(availableFonts[0].1);
  }

  /** When the first font has a file, its name stays the dictionary's first item whatever follows. */
  lemma {:induction false} FirstNameStaysFirst(fonts: seq<FontChoice>, present: Present)
    requires fonts != [] && FirstExisting(fonts[0].paths, present).Some?
    ensures Available(fonts, present) != [] && Available(fonts, present)[0].0 == fonts[0].name
  {
    var init := fonts[..|fonts| - 1];
    if |fonts| > 1 {
      assert init[0] == fonts[0];
      FirstNameStaysFirst(init, present);
    } else {
      assert init == [];
    }
  }

  /**
   * With both the first Mac file and the Windows file for Times New Roman
   * present, the later Windows entry overwrites the value but Times New Roman
   * stays the first name, so the fallback font is the Windows file.
   */
  lemma TimesOverwrittenInPlace(present: Present)
    requires present("/Library/Fonts/Times New Roman.ttf") && present("C:/Windows/Fonts/times.ttf")
    ensures FallbackFont(present) == Some("C:/Windows/Fonts/times.ttf")
  {
    var f := RECOMMENDED;
    var times := "Times New Roman";
    assert FirstExisting(f[0].paths, present).Some?;
    FirstNameStaysFirst(f, present);
    assert FirstExisting(f[5].paths, present) == Some("C:/Windows/Fonts/times.ttf");
    LastEntryWins(f, present, 5);
    var d := Available(f, present);
    assert d[0].0 == times && Get(d, times) == Some(d[0].1);
  }
}
