/**
 * The `/coloured_name` formatter: wraps a Pikmin name in Unity rich-text
 * tags. Bold is innermost, then italic, then the colour tag outermost; a
 * colour is lower-cased, replaced by its hex code when it names a colour of
 * the table, and loses one leading '#' before `<color=#...>` is built.
 */
module Pikmin {
  import opened Wrappers

  /** `Pikmin.color_map`, in its declared order. */
  const ColorTable: seq<(string, string)> := [
    ("red", "#FF0000"),
    ("blue", "#0000FF"),
    ("green", "#00FF00"),
    ("yellow", "#FFFF00"),
    ("cyan", "#00FFFF"),
    ("magenta", "#FF00FF"),
    ("black", "#000000"),
    ("white", "#FFFFFF"),
    ("gray", "#808080"),
    ("orange", "#FFA500"),
    ("purple", "#800080"),
    ("brown", "#A52A2A"),
    ("pink", "#FFC0CB"),
    ("lime", "#00FF00"),
    ("indigo", "#4B0082"),
    ("violet", "#EE82EE"),
    ("gold", "#FFD700"),
    ("silver", "#C0C0C0")
  ]

  /** `table.get(key)`: the value of the first entry with that key. */
  function Lookup(table: seq<(string, string)>, key: string): (r: Option<string>)
    ensures r.Some? ==> (key, r.value) in table
    ensures r.None? ==> forall i :: 0 <= i < |table| ==> table[i].0 != key
  {
    if table == [] then None
    else if table[0].0 == key then Some(table[0].1)
    else Lookup(table[1..], key)
  }

  function LowerChar(c: char): char {
    if 'A' <= c <= 'Z' then (c as int + 32) as char else c
  }

  /** `s.lower()` on ASCII letters. */
  function Lower(s: string): (r: string)
    ensures |r| == |s|
    ensures forall i :: 0 <= i < |s| ==> r[i] == LowerChar(s[i])
  {
    if s == [] then [] else [LowerChar(s[0])] + Lower(s[1..])
  }

  /** `c[1:]` if `c.startswith('#')`: at most one leading '#' goes, nothing else changes. */
  function StripHash(c: string): (r: string)
    ensures c == r || c == "#" + r
    ensures |c| > 0 && c[0] == '#' <==> |r| == |c| - 1
  {
    if |c| > 0 && c[0] == '#' then c[1..] else c
  }

  /** What goes after `<color=#`: lower-cased, looked up, one '#' stripped. */
  function ColourCode(colour: string): string {
    var c := Lower(colour);
    var c1 := match Lookup(ColorTable, c) case Some(hex) => hex case None => c;
    StripHash(c1)
  }

  /** `formatted_name` after the bold and italic steps: bold first, so it ends up inside. */
  function Styled(name: string, bold: bool, italic: bool): string {
    var f1 := if bold then "<b>" + name + "</b>" else name;
    if italic then "<i>" + f1 + "</i>" else f1
  }

  /** `if color:` in Python: `None` and `""` are both falsy. */
  predicate HasColour(colour: Option<string>) {
    colour.Some? && colour.value != ""
  }

  /** `coloured_name(name, color, bold, italic)`: the formatted name, which the command posts between backticks. */
  function ColouredName(name: string, colour: Option<string>, bold: bool, italic: bool): string {
    var f := Styled(name, bold, italic);
    if HasColour(colour) then "<color=#" + ColourCode(colour.value) + ">" + f + "</color>" else f
  }

  /** The opening tags, outermost first. */
  function OpenTags(colour: Option<string>, bold: bool, italic: bool): string {
    (if HasColour(colour) then "<color=#" + ColourCode(colour.value) + ">" else "")
      + (if italic then "<i>" else "")
      + (if bold then "<b>" else "")
  }

  /** The closing tags, innermost first. */
  function CloseTags(colour: Option<string>, bold: bool, italic: bool): string {
    (if bold then "</b>" else "")
      + (if italic then "</i>" else "")
      + (if HasColour(colour) then "</color>" else "")
  }

  /** Bold inside italic: `[<i>][<b>]name[</b>][</i>]`. */
  lemma StyleLayout(name: string, bold: bool, italic: bool)
    ensures Styled(name, bold, italic)
              == (if italic then "<i>" else "") + (if bold then "<b>" else "") + name
                 + (if bold then "</b>" else "") + (if italic then "</i>" else "")
  {
    if bold && italic {
      assert "<i>" + ("<b>" + name + "</b>") + "</i>" == "<i>" + "<b>" + name + "</b>" + "</i>";
    } else if bold {
      assert "<b>" + name + "</b>" == "" + "<b>" + name + "</b>" + "";
    } else if italic {
      assert "<i>" + name + "</i>" == "<i>" + "" + name + "" + "</i>";
    } else {
      assert name == "" + "" + name + "" + "";
    }
  }

  /** Without a colour only the style tags are added; with no style either, the name is unchanged. */
  lemma NoColourLayout(name: string, colour: Option<string>, bold: bool, italic: bool)
    requires !HasColour(colour)
    ensures ColouredName(name, colour, bold, italic) == Styled(name, bold, italic)
    ensures ColouredName(name, colour, bold, italic) == OpenTags(colour, bold, italic) + name + CloseTags(colour, bold, italic)
    ensures !bold && !italic ==> ColouredName(name, colour, bold, italic) == name
  {
    StyleLayout(name, bold, italic);
    var ib := (if italic then "<i>" else "") + (if bold then "<b>" else "");
    var bi := (if bold then "</b>" else "") + (if italic then "</i>" else "");
    assert OpenTags(colour, bold, italic) == "" + ib;
    assert CloseTags(colour, bold, italic) == bi + "";
  }

  lemma WrapAssoc(code: string, f: string, ib: string, name: string, bi: string)
    requires f == ib + name + bi
    ensures "<color=#" + code + ">" + f + "</color>" == ("<color=#" + code + ">" + ib) + name + (bi + "</color>")
  {
  }

  lemma ColouredNameColoured(name: string, colour: Option<string>, bold: bool, italic: bool)
    requires HasColour(colour)
    ensures ColouredName(name, colour, bold, italic) == "<color=#" + ColourCode(colour.value) + ">" + Styled(name, bold, italic) + "</color>"
  {
  }

  lemma OpenColoured(colour: Option<string>, bold: bool, italic: bool)
    requires HasColour(colour)
    ensures OpenTags(colour, bold, italic) == "<color=#" + ColourCode(colour.value) + ">" + ((if italic then "<i>" else "") + (if bold then "<b>" else ""))
  {
  }

  lemma CloseColoured(colour: Option<string>, bold: bool, italic: bool)
    requires HasColour(colour)
    ensures CloseTags(colour, bold, italic) == ((if bold then "</b>" else "") + (if italic then "</i>" else "")) + "</color>"
  {
  }

  lemma ColourLayout(name: string, colour: Option<string>, bold: bool, italic: bool)
    requires HasColour(colour)
    ensures ColouredName(name, colour, bold, italic) == OpenTags(colour, bold, italic) + name + CloseTags(colour, bold, italic)
  {
    StyleLayout(name, bold, italic);
    ColouredNameColoured(name, colour, bold, italic);
    OpenColoured(colour, bold, italic);
    CloseColoured(colour, bold, italic);
    var ib := (if italic then "<i>" else "") + (if bold then "<b>" else "");
    var bi := (if bold then "</b>" else "") + (if italic then "</i>" else "");
    WrapAssoc(ColourCode(colour.value), Styled(name, bold, italic), ib, name, bi);
  }

  /** Tags nest: colour outermost, then italic, then bold around the name. */
  lemma ColouredNameLayout(name: string, colour: Option<string>, bold: bool, italic: bool)
    ensures ColouredName(name, colour, bold, italic) == OpenTags(colour, bold, italic) + name + CloseTags(colour, bold, italic)
  {
    if HasColour(colour) {
      ColourLayout(name, colour, bold, italic);
    } else {
      NoColourLayout(name, colour, bold, italic);
    }
  }

  lemma LowerIdempotent(s: string)
    ensures Lower(Lower(s)) == Lower(s)
  {
  }

  /** Colour names are not case sensitive: "Red", "RED" and "red" give the same code. */
  lemma ColourCodeIgnoresCase(colour: string)
    ensures ColourCode(colour) == ColourCode(Lower(colour))
  {
    LowerIdempotent(colour);
  }

  predicate IsColourName(c: string) {
    Lookup(ColorTable, c).Some?
  }

  predicate IsUpperHex(c: char) {
    '0' <= c <= '9' || 'A' <= c <= 'F'
  }

  /** A table entry: a name not starting with '#', and '#' with six upper-case hex digits. */
  predicate IsTableEntry(e: (string, string)) {
    && |e.0| > 0 && e.0[0] != '#'
    && |e.1| == 7 && e.1[0] == '#'
    && forall j :: 1 <= j < 7 ==> IsUpperHex(e.1[j])
  }

  lemma ColorTableEntries()
    ensures forall i :: 0 <= i < |ColorTable| ==> IsTableEntry(ColorTable[i])
  {
    forall i | 0 <= i < |ColorTable|
      ensures IsTableEntry(ColorTable[i])
    {
      var e := ColorTable[i];
      assert e.1[1] in "0123456789ABCDEF" && e.1[2] in "0123456789ABCDEF"
          && e.1[3] in "0123456789ABCDEF" && e.1[4] in "0123456789ABCDEF"
          && e.1[5] in "0123456789ABCDEF" && e.1[6] in "0123456789ABCDEF";
    }
  }

  /** A table colour becomes its six upper-case hex digits, without the '#'. */
  lemma KnownColourIsHex(colour: string)
    requires IsColourName(Lower(colour))
    ensures ColourCode(colour) == Lookup(ColorTable, Lower(colour)).value[1..]
    ensures |ColourCode(colour)| == 6 && forall i :: 0 <= i < 6 ==> IsUpperHex(ColourCode(colour)[i])
  {
    ColorTableEntries();
    var hex := Lookup(ColorTable, Lower(colour)).value;
    assert IsTableEntry((Lower(colour), hex));
  }

  /** Any other colour is passed through lower-cased, never rejected. */
  lemma UnknownColourPassesThrough(colour: string)
    requires !IsColourName(Lower(colour)) && (colour == [] || colour[0] != '#')
    ensures ColourCode(colour) == Lower(colour)
  {
  }

  lemma {:induction false} LowerKeeps(s: string)
    requires forall i :: 0 <= i < |s| ==> !('A' <= s[i] <= 'Z')
    ensures Lower(s) == s
  {
    if s != [] {
      LowerKeeps(s[1..]);
    }
  }

  lemma LowerHash(c: string)
    ensures Lower("#" + c) == "#" + Lower(c)
  {
    assert ("#" + c)[1..] == c;
  }

  lemma NoHashKey(table: seq<(string, string)>, c: string)
    requires forall i :: 0 <= i < |table| ==> IsTableEntry(table[i])
    requires |c| > 0 && c[0] == '#'
    ensures Lookup(table, c).None?
  {
    if table != [] {
      assert forall i :: 0 <= i < |table[1..]| ==> IsTableEntry(table[1..][i]) by {
        forall i | 0 <= i < |table[1..]| ensures IsTableEntry(table[1..][i]) {
          assert table[1..][i] == table[i + 1];
        }
      }
      NoHashKey(table[1..], c);
    }
  }

  /** No colour name starts with '#'. */
  lemma HashIsNoName(c: string)
    requires |c| > 0 && c[0] == '#'
    ensures !IsColourName(c)
  {
    ColorTableEntries();
    NoHashKey(ColorTable, c);
  }

  lemma UnknownColourCode(colour: string)
    requires !IsColourName(Lower(colour))
    ensures ColourCode(colour) == StripHash(Lower(colour))
  {
  }

  /** "#" + c, when c is no colour name, becomes c lower-cased. */
  lemma HashedCode(c: string)
    requires !IsColourName(Lower(c))
    ensures ColourCode("#" + c) == Lower(c)
  {
    LowerHash(c);
    HashIsNoName("#" + Lower(c));
    UnknownColourCode("#" + c);
    assert ("#" + Lower(c))[1..] == Lower(c);
  }

  /** A hex code works with or without its '#': "#abc123" and "abc123" agree. */
  lemma HashIsOptional(c: string, name: string, bold: bool, italic: bool)
    requires |c| > 0 && c[0] != '#' && !IsColourName(Lower(c))
    ensures ColourCode("#" + c) == ColourCode(c)
    ensures ColouredName(name, Some("#" + c), bold, italic) == ColouredName(name, Some(c), bold, italic)
  {
    HashedCode(c);
    UnknownColourPassesThrough(c);
    SameCodeSameName(name, "#" + c, c, bold, italic);
  }

  /** The colour only reaches the output through its code. */
  lemma SameCodeSameName(name: string, a: string, b: string, bold: bool, italic: bool)
    requires a != "" && b != "" && ColourCode(a) == ColourCode(b)
    ensures ColouredName(name, Some(a), bold, italic) == ColouredName(name, Some(b), bold, italic)
  {
    ColouredNameColoured(name, Some(a), bold, italic);
    ColouredNameColoured(name, Some(b), bold, italic);
  }

  /**
   * Only one '#' is stripped: the tag reads `<color=##...` exactly when the
   * colour is not a table name and starts with two '#'.
   */
  lemma DoubleHashIff(colour: string)
    ensures (|ColourCode(colour)| > 0 && ColourCode(colour)[0] == '#') <==>
              (!IsColourName(Lower(colour)) && |colour| >= 2 && colour[0] == '#' && colour[1] == '#')
  {
    if IsColourName(Lower(colour)) {
      KnownColourIsHex(colour);
      assert !IsUpperHex('#');
    } else if |colour| > 0 && colour[0] == '#' {
      assert ColourCode(colour) == Lower(colour)[1..];
    }
  }

  /** No name before "lime" in the table starts with 'l'. */
  lemma FirstLetters()
    ensures forall j :: 0 <= j < 13 ==> |ColorTable[j].0| > 0 && ColorTable[j].0[0] != 'l'
  {
    assert ColorTable[0].0[0] == 'r' && ColorTable[1].0[0] == 'b' && ColorTable[2].0[0] == 'g'
      && ColorTable[3].0[0] == 'y' && ColorTable[4].0[0] == 'c' && ColorTable[5].0[0] == 'm'
      && ColorTable[6].0[0] == 'b' && ColorTable[7].0[0] == 'w' && ColorTable[8].0[0] == 'g'
      && ColorTable[9].0[0] == 'o' && ColorTable[10].0[0] == 'p' && ColorTable[11].0[0] == 'b'
      && ColorTable[12].0[0] == 'p';
  }

  /** A colour whose lower-cased form is in the table gets that entry's code. */
  lemma KnownCode(colour: string, hex: string)
    requires Lookup(ColorTable, Lower(colour)) == Some(hex)
    ensures ColourCode(colour) == StripHash(hex)
  {
  }

  lemma GreenEntry()
    ensures Lookup(ColorTable, Lower("green")) == Some("#00FF00")
  {
    LowerKeeps("green");
    LookupAt(ColorTable, 2, "green");
  }

  lemma LimeEntry()
    ensures Lookup(ColorTable, Lower("lime")) == Some("#00FF00")
  {
    LowerKeeps("lime");
    FirstLetters();
    assert forall j :: 0 <= j < 13 ==> ColorTable[j].0 != "lime" by {
      forall j | 0 <= j < 13 ensures ColorTable[j].0 != "lime" {
        assert ColorTable[j].0[0] != 'l';
      }
    }
    LookupAt(ColorTable, 13, "lime");
  }

  lemma StripGreen()
    ensures StripHash("#00FF00") == "00FF00"
  {
  }

  /** "green" and "lime" are the same colour. */
  lemma GreenIsLime()
    ensures ColourCode("green") == ColourCode("lime") == "00FF00"
  {
    GreenEntry();
    LimeEntry();
    KnownCode("green", "#00FF00");
    KnownCode("lime", "#00FF00");
    StripGreen();
  }

  /** The first entry with the key is the one found. */
  lemma {:induction false} LookupAt(table: seq<(string, string)>, i: nat, key: string)
    requires i < |table| && table[i].0 == key
    requires forall j :: 0 <= j < i ==> table[j].0 != key
    ensures Lookup(table, key) == Some(table[i].1)
  {
    if i > 0 {
      assert forall j :: 0 <= j < i - 1 ==> table[1..][j].0 != key by {
        forall j | 0 <= j < i - 1 ensures table[1..][j].0 != key {
          assert table[1..][j] == table[j + 1];
        }
      }
      LookupAt(table[1..], i - 1, key);
    }
  }

  lemma RedEntry()
    ensures Lookup(ColorTable, Lower("Red")) == Some("#FF0000")
  {
    assert Lower("Red") == "red";
    LookupAt(ColorTable, 0, "red");
  }

  lemma StripRed()
    ensures StripHash("#FF0000") == "FF0000"
  {
  }

  lemma StyledOlimar()
    ensures Styled("Olimar", true, true) == "<i><b>Olimar</b></i>"
  {
  }

  lemma RedOlimarText()
    ensures "<color=#" + "FF0000" + ">" + "<i><b>Olimar</b></i>" + "</color>" == "<color=#FF0000><i><b>Olimar</b></i></color>"
  {
  }

  /** A named colour with both styles. */
  lemma FormattedExample()
    ensures ColouredName("Olimar", Some("Red"), true, true) == "<color=#FF0000><i><b>Olimar</b></i></color>"
  {
    RedEntry();
    KnownCode("Red", "#FF0000");
    StripRed();
    StyledOlimar();
    ColouredNameColoured("Olimar", Some("Red"), true, true);
    RedOlimarText();
  }
}
