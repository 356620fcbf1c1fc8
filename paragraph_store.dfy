/**
 * The paragraph store `<md5>_paragraphs.json` that the translate command
 * writes and the regenerate command reads: page numbers become decimal
 * strings, boxes become lists of four numbers, and the object's items keep
 * the dictionary's order. JSON text itself is not modelled: the store is the
 * decoded object, as a sequence of (key, value) items.
 */
module ParagraphStore {
  import opened Wrappers
  import opened Fragments

  /** A paragraph as stored: its text and its box as a list of numbers. */
  datatype StoredParagraph = StoredParagraph(text: string, coords: seq<real>)

  /** The stored object: its items in order. */
  type Stored = seq<(string, seq<StoredParagraph>)>

  predicate IsDigit(c: char) { '0' <= c <= '9' }

  /** The decimal digits of a natural number, without leading zeros: `str(n)` for `n >= 0`. */
  function NatToString(n: nat): (s: string)
    ensures s != [] && forall k :: 0 <= k < |s| ==> IsDigit(s[k])
    decreases n
  {
    var d := ['0' + (n % 10) as char];
    if n < 10 then d else NatToString(n / 10) + d
  }

  /** `str(n)`. */
  function IntToString(n: int): string
  {
    if n >= 0 then NatToString(n) else "-" + NatToString(-n)
  }

  /** The value of a string of decimal digits. */
  function DigitsValue(s: string): nat
    requires forall k :: 0 <= k < |s| ==> IsDigit(s[k])
  {
    if s == [] then 0
    else
      assert IsDigit(s[|s| - 1]);
      DigitsValue(s[..|s| - 1]) * 10 + (s[|s| - 1] as int - '0' as int)
  }

  /** `int(s)` for the forms the store can hold: optional minus sign, then at least one digit. */
  function ParseInt(s: string): Option<int>
  {
    if s != [] && forall k :: 0 <= k < |s| ==> IsDigit(s[k]) then Some(DigitsValue(s) as int)
    else if |s| > 1 && s[0] == '-' && forall k :: 1 <= k < |s| ==> IsDigit(s[k]) then Some(-(DigitsValue(s[1..]) as int))
    else None
  }

  lemma {:induction false} NatToStringValue(n: nat)
    ensures DigitsValue(NatToString(n)) == n
    decreases n
  {
    var d := ['0' + (n % 10) as char];
    if n >= 10 {
      NatToStringValue(n / 10);
      var s := NatToString(n / 10) + d;
      assert s[..|s| - 1] == NatToString(n / 10);
    }
  }

  /** `int(str(n)) == n` for every integer. */
  lemma ParseIntToString(n: int)
    ensures ParseInt(IntToString(n)) == Some(n)
  {
    if n >= 0 {
      NatToStringValue(n);
    } else {
      NatToStringValue(-n);
      var s := IntToString(n);
      assert s[1..] == NatToString(-n);
      assert !IsDigit(s[0]);
    }
  }

  /** A box as the list of its four numbers. */
  function Coords(box: BBox): seq<real>
  {
    [box.x0, box.y0, box.x1, box.y1]
  }

  /** `[(text, list(bbox)) for text, bbox in paragraphs]`. */
  function EncodeParagraphs(ps: seq<Paragraph>): (r: seq<StoredParagraph>)
    ensures |r| == |ps|
  {
    if ps == [] then [] else EncodeParagraphs(ps[..|ps| - 1]) + [StoredParagraph(ps[|ps| - 1].text, Coords(ps[|ps| - 1].box))]
  }

  /** `order` lists the dictionary's keys, each once, in its iteration order. */
  predicate IsOrder(order: seq<int>, pages: PagesMap)
  {
    (forall k :: 0 <= k < |order| ==> order[k] in pages) &&
    (forall p :: p in pages ==> p in order) &&
    (forall j, k :: 0 <= j < k < |order| ==> order[j] != order[k])
  }

  /** The serialised object: for each page in order, `str(page)` and its encoded paragraphs. */
  function Encode(pages: PagesMap, order: seq<int>): (r: Stored)
    requires forall k :: 0 <= k < |order| ==> order[k] in pages
    ensures |r| == |order|
  {
    if order == [] then []
    else
      var p := order[|order| - 1];
      Encode(pages, order[..|order| - 1]) + [(IntToString(p), EncodeParagraphs(pages[p]))]
  }

  /** `(text, tuple(bbox))`; the model's boxes hold exactly four numbers, so any other length is rejected. */
  function DecodeParagraphs(ss: seq<StoredParagraph>): Option<seq<Paragraph>>
  {
    if ss == [] then Some([])
    else match DecodeParagraphs(ss[..|ss| - 1])
      case None => None
      case Some(ps) =>
        var c := ss[|ss| - 1].coords;
        if |c| != 4 then None else Some(ps + [Paragraph(ss[|ss| - 1].text, BBox(c[0], c[1], c[2], c[3]))])
  }

  /**
   * The dictionary rebuilt item by item: `paragraphs_by_page[int(key)] = ...`,
   * a later item overwriting an earlier one for the same page; `None` when a
   * key is not an integer (`int` raises) or a box is not four numbers.
   */
  function Decode(stored: Stored): Option<PagesMap>
  {
    if stored == [] then Some(map[])
    else match Decode(stored[..|stored| - 1])
      case None => None
      case Some(pages) =>
        var (key, ss) := stored[|stored| - 1];
        match (ParseInt(key), DecodeParagraphs(ss))
          case (Some(p), Some(ps)) => Some(pages[p := ps])
          case _ => None
  }

  lemma {:induction false} DecodeEncodeParagraphs(ps: seq<Paragraph>)
    ensures DecodeParagraphs(EncodeParagraphs(ps)) == Some(ps)
  {
    if ps != [] {
      var init, last := ps[..|ps| - 1], ps[|ps| - 1];
      DecodeEncodeParagraphs(init);
      var e := EncodeParagraphs(ps);
      var stored := StoredParagraph(last.text, Coords(last.box));
      assert e == EncodeParagraphs(init) + [stored];
      assert e[..|e| - 1] == EncodeParagraphs(init) && e[|e| - 1] == stored;
      assert DecodeParagraphs(e) == Some(init + [Paragraph(last.text, last.box)]);
      assert init + [last] == ps;
    }
  }

  lemma {:induction false} DecodeEncodePrefix(pages: PagesMap, order: seq<int>)
    requires forall k :: 0 <= k < |order| ==> order[k] in pages
    ensures Decode(Encode(pages, order)) == Some(map p | p in order :: pages[p])
  {
    if order != [] {
      var init := order[..|order| - 1];
      var p := order[|order| - 1];
      DecodeEncodePrefix(pages, init);
      ParseIntToString(p);
      DecodeEncodeParagraphs(pages[p]);
      LaterItemWins(Encode(pages, init), IntToString(p), EncodeParagraphs(pages[p]));
      MapOfOrderNext(pages, order);
    }
  }

  lemma MapOfOrderNext(pages: PagesMap, order: seq<int>)
    requires order != [] && forall k :: 0 <= k < |order| ==> order[k] in pages
    ensures var p := order[|order| - 1];
      (map q | q in order[..|order| - 1] :: pages[q])[p := pages[p]] == map q | q in order :: pages[q]
  {
    var init, p := order[..|order| - 1], order[|order| - 1];
    assert order == init + [p];
  }

  /** Decoding what was encoded gives back the same dictionary: page numbers, texts and boxes. */
  lemma DecodeEncode(pages: PagesMap, order: seq<int>)
    requires IsOrder(order, pages)
    ensures Decode(Encode(pages, order)) == Some(pages)
  {
    DecodeEncodePrefix(pages, order);
    var m := map p | p in order :: pages[p];
    assert forall p :: p in m <==> p in pages;
    assert m == pages;
  }

  /** A later item for a page replaces the earlier one. */
  lemma LaterItemWins(stored: Stored, key: string, ss: seq<StoredParagraph>)
    requires Decode(stored).Some? && ParseInt(key).Some? && DecodeParagraphs(ss).Some?
    ensures Decode(stored + [(key, ss)]) == Some(Decode(stored).value[ParseInt(key).value := DecodeParagraphs(ss).value])
  {
    assert (stored + [(key, ss)])[..|stored|] == stored;
  }

  /** A key that is not an integer makes the whole load fail. */
  lemma BadKeyFails(stored: Stored, key: string, ss: seq<StoredParagraph>, rest: Stored)
    requires ParseInt(key).None?
    ensures Decode(stored + [(key, ss)] + rest).None?
  {
    DecodeNoneStays(stored + [(key, ss)], rest);
    assert (stored + [(key, ss)])[..|stored|] == stored;
  }

  lemma {:induction false} DecodeNoneStays(a: Stored, b: Stored)
    requires Decode(a).None?
    ensures Decode(a + b).None?
    decreases |b|
  {
    if b == [] {
      assert a + b == a;
    } else {
      DecodeNoneStays(a, b[..|b| - 1]);
      assert (a + b)[..|a + b| - 1] == a + b[..|b| - 1];
    }
  }
}
