/** The figure-name convention of the image mover: `parse_filename` reads a
    `chapter_section[_subsection].png` name into a key, and
    `build_new_filename` renders a key as the zero-padded canonical name. */
module FigureNames {
  import opened Wrappers
  import opened PyText

  /** The parsed (chapter, section, optional subsection) triple. */
  datatype Key = Key(chapter: int, section: int, subsection: Option<int>)

  /** What `parse_filename` does with a name: `Skip` is its `None` return,
      `Malformed` the `ValueError` that `int` raises on `field`. */
  datatype ParseResult = Skip | Parsed(key: Key) | Malformed(field: string)

  /** The characters `rstrip('.png')` removes from the end of a name. */
  const PngChars: set<char> := {'.', 'p', 'n', 'g'}

  /** The `_`-separated fields of a name once the trailing run of
      `PngChars` is stripped. */
  function Fields(name: string): (fields: seq<string>)
    ensures |fields| >= 1
    ensures forall i :: 0 <= i < |fields| ==> '_' !in fields[i]
    ensures JoinWith(fields, '_') == RStrip(name, PngChars)
  {
    Split(RStrip(name, PngChars), '_')
  }

  /** `map(int, fields)` forced left to right: either every value, or the
      index of the first field `int` rejects. */
  function ParseFields(fields: seq<string>): (r: Result<seq<int>, nat>)
    ensures r.Ok? <==> forall i :: 0 <= i < |fields| ==> ParseInt(fields[i]).Some?
    ensures r.Ok? ==> |r.value| == |fields|
    ensures r.Ok? ==> forall i :: 0 <= i < |fields| ==> ParseInt(fields[i]) == Some(r.value[i])
    ensures r.Err? ==> r.error < |fields| && ParseInt(fields[r.error]).None?
    ensures r.Err? ==> forall j :: 0 <= j < r.error ==> ParseInt(fields[j]).Some?
  {
    if fields == [] then Ok([])
    else match ParseInt(fields[0])
      case None => Err(0)
      case Some(n) =>
        match ParseFields(fields[1..])
        case Err(i) => Err(i + 1)
        case Ok(ns) => Ok([n] + ns)
  }

  /** `parse_filename`, applied to the file's own name. */
  function ParseFilename(name: string): (r: ParseResult)
    ensures r.Skip? <==> |Fields(name)| != 2 && |Fields(name)| != 3
    ensures r.Parsed? <==>
      (|Fields(name)| == 2 || |Fields(name)| == 3) &&
      forall i :: 0 <= i < |Fields(name)| ==> ParseInt(Fields(name)[i]).Some?
    ensures r.Parsed? ==>
      ParseInt(Fields(name)[0]) == Some(r.key.chapter) &&
      ParseInt(Fields(name)[1]) == Some(r.key.section) &&
      (r.key.subsection.None? <==> |Fields(name)| == 2) &&
      (|Fields(name)| == 3 ==> ParseInt(Fields(name)[2]) == r.key.subsection)
    ensures r.Malformed? ==>
      (|Fields(name)| == 2 || |Fields(name)| == 3) &&
      exists i :: 0 <= i < |Fields(name)| && r.field == Fields(name)[i] && ParseInt(r.field).None? &&
        forall j :: 0 <= j < i ==> ParseInt(Fields(name)[j]).Some?
  {
    var parts := Fields(name);
    if |parts| < 2 || |parts| >= 4 then Skip
    else match ParseFields(parts)
      case Err(i) => Malformed(parts[i])
      case Ok(ns) =>
        if |parts| == 3 then Parsed(Key(ns[0], ns[1], Some(ns[2])))
        else Parsed(Key(ns[0], ns[1], None))
  }

  /** One number rendered as `str(n).rjust(2, "0")`. */
  function Pad(n: int): (s: string)
    ensures |s| >= 2 && '_' !in s && IsDigit(s[|s| - 1])
    ensures ParseInt(s) == Some(n)
    ensures n < 0 ==> s == IntToString(n)
  {
    var s := RJust(IntToString(n), 2, '0');
    ParseIntPadded(n, 2);
    PaddedChars(n, 2);
    s
  }

  /** The `new_file` stem `build_new_filename` assembles before adding the
      extension. */
  function NewStem(chapter: int, section: int, subsection: Option<int>): (stem: string)
    ensures |stem| > 0 && IsDigit(stem[|stem| - 1])
  {
    var head := Pad(chapter) + "_" + Pad(section);
    if subsection.Some? then head + "_" + Pad(subsection.value) else head
  }

  /** `build_new_filename`. */
  function BuildNewFilename(chapter: int, section: int, subsection: Option<int>): (r: string)
    ensures |r| > 4 && r[|r| - 4..] == ".png"
    ensures r == JoinWith(PaddedFields(Key(chapter, section, subsection)), '_') + ".png"
  {
    NewStemFields(Key(chapter, section, subsection));
    NewStem(chapter, section, subsection) + ".png"
  }

  /** The padded fields a key is rendered from, in order. */
  function PaddedFields(key: Key): (fields: seq<string>)
    ensures |fields| == if key.subsection.Some? then 3 else 2
  {
    [Pad(key.chapter), Pad(key.section)] + if key.subsection.Some? then [Pad(key.subsection.value)] else []
  }

  function Build(key: Key): string
  {
    BuildNewFilename(key.chapter, key.section, key.subsection)
  }

  /** For non-negative `n`, `Pad(n)` is the decimal digits of `n` behind
      enough zeros to reach two characters, and never cut short. */
  lemma PadNatural(n: nat)
    ensures var s := Pad(n); var d := NatToString(n);
      |s| == (if |d| < 2 then 2 else |d|) && AllDigits(s) &&
      s[|s| - |d|..] == d && forall i :: 0 <= i < |s| - |d| ==> s[i] == '0'
  {
  }

  /** The stem of a built name splits back into exactly its padded
      fields: three of them exactly when the key has a subsection. */
  lemma NewStemFields(key: Key)
    ensures Split(NewStem(key.chapter, key.section, key.subsection), '_') == PaddedFields(key)
  {
    var c, s := Pad(key.chapter), Pad(key.section);
    if key.subsection.Some? {
      var t := Pad(key.subsection.value);
      assert NewStem(key.chapter, key.section, key.subsection) == c + "_" + s + "_" + t;
      SplitThree(c, s, t, '_');
      assert PaddedFields(key) == [c, s, t];
    } else {
      assert NewStem(key.chapter, key.section, key.subsection) == c + "_" + s;
      SplitTwo(c, s, '_');
      assert PaddedFields(key) == [c, s];
    }
  }

  /** Stripping `chars` from `x + y` leaves `x` when `y` is made of `chars`
      and `x` ends outside them. */
  lemma RStripSuffix(x: string, y: string, chars: set<char>)
    requires |x| > 0 && x[|x| - 1] !in chars
    requires forall i :: 0 <= i < |y| ==> y[i] in chars
    ensures RStrip(x + y, chars) == x
  {
    var s := x + y;
    var t := RStrip(s, chars);
    assert s[|x| - 1] !in chars;
    assert forall i :: |x| <= i < |s| ==> s[i] in chars;
  }

  lemma DigitNotPng(c: char)
    requires IsDigit(c)
    ensures c !in PngChars
  {
  }

  /** Round trip: `parse_filename(build_new_filename(c, s, t)) == (c, s, t)`,
      for every integer field (a negative field is already two characters
      wide, so `rjust` leaves it alone). */
  lemma {:induction false} ParseBuildRoundTrip(key: Key)
    ensures ParseFilename(Build(key)) == Parsed(key)
  {
    BuildFields(key);
    ParsePaddedFields(Build(key), key);
  }

  /** A built name is its padded fields joined with `_`, then `.png`: its
      fields are exactly the padded chapter, section and subsection. */
  lemma BuildFields(key: Key)
    ensures Fields(Build(key)) == PaddedFields(key)
  {
    var stem := NewStem(key.chapter, key.section, key.subsection);
    var ext := ".png";
    assert ext == ['.', 'p', 'n', 'g'];
    assert forall i :: 0 <= i < |ext| ==> ext[i] in PngChars;
    DigitNotPng(stem[|stem| - 1]);
    RStripSuffix(stem, ext, PngChars);
    NewStemFields(key);
  }

  /** A name whose fields are a key's padded fields parses to that key. */
  lemma ParsePaddedFields(name: string, key: Key)
    requires Fields(name) == PaddedFields(key)
    ensures ParseFilename(name) == Parsed(key)
  {
    var c, s := Pad(key.chapter), Pad(key.section);
    if key.subsection.Some? {
      var t := Pad(key.subsection.value);
      assert PaddedFields(key) == [c, s, t];
      ParseThreeFields(name, c, s, t, key.chapter, key.section, key.subsection.value);
    } else {
      assert PaddedFields(key) == [c, s];
      ParseTwoFields(name, c, s, key.chapter, key.section);
    }
  }

  /** A name with two numeric fields parses to a key without subsection. */
  lemma ParseTwoFields(name: string, a: string, b: string, x: int, y: int)
    requires Fields(name) == [a, b]
    requires ParseInt(a) == Some(x) && ParseInt(b) == Some(y)
    ensures ParseFilename(name) == Parsed(Key(x, y, None))
  {
    var fields := [a, b];
    assert forall i :: 0 <= i < |fields| ==> ParseInt(fields[i]).Some?;
    var r := ParseFields(fields);
    assert r.value[0] == x && r.value[1] == y;
    assert r.value == [x, y];
  }

  /** A name with three numeric fields parses to a key with subsection. */
  lemma ParseThreeFields(name: string, a: string, b: string, c: string, x: int, y: int, z: int)
    requires Fields(name) == [a, b, c]
    requires ParseInt(a) == Some(x) && ParseInt(b) == Some(y) && ParseInt(c) == Some(z)
    ensures ParseFilename(name) == Parsed(Key(x, y, Some(z)))
  {
    var fields := [a, b, c];
    assert forall i :: 0 <= i < |fields| ==> ParseInt(fields[i]).Some?;
    var r := ParseFields(fields);
    assert r.value[0] == x && r.value[1] == y && r.value[2] == z;
    assert r.value == [x, y, z];
  }

  /** Building is canonical: re-parsing a built name and building again
      gives the same name. */
  lemma BuildIdempotent(key: Key)
    ensures ParseFilename(Build(key)).Parsed?
    ensures Build(ParseFilename(Build(key)).key) == Build(key)
  {
    ParseBuildRoundTrip(key);
  }

  /** A name made of `stem` and the `.png` extension has the `_`-fields of
      `stem`, when `stem` does not itself end in one of `PngChars`. */
  lemma FieldsOfPngName(stem: string)
    requires |stem| > 0 && stem[|stem| - 1] !in PngChars
    ensures Fields(stem + ".png") == Split(stem, '_')
  {
    var ext := ".png";
    assert ext == ['.', 'p', 'n', 'g'];
    assert forall i :: 0 <= i < |ext| ==> ext[i] in PngChars;
    RStripSuffix(stem, ext, PngChars);
  }

  /** `int(str(n)) == n` for a non-negative `n`. */
  lemma ParseDecimal(n: nat)
    ensures ParseInt(NatToString(n)) == Some(n)
  {
    ParseIntPadded(n, 0);
  }

  /** `Pad` of a one-digit number puts a `0` in front of it. */
  lemma PadOneDigit(n: nat)
    requires n < 10
    ensures Pad(n) == ['0', DigitChar(n)]
  {
    assert NatToString(n) == [DigitChar(n)];
    assert Repeat('0', 1) == ['0'];
  }

  /** `Pad` leaves a two-digit number as it is. */
  lemma PadTwoDigits(n: nat)
    requires 10 <= n < 100
    ensures Pad(n) == [DigitChar(n / 10), DigitChar(n % 10)]
  {
    assert NatToString(n / 10) == [DigitChar(n / 10)];
  }

  /** `12_5.png` has two fields and becomes `12_05.png`. */
  lemma TwoFieldExample()
    ensures ParseFilename("12_5.png") == Parsed(Key(12, 5, None))
    ensures BuildNewFilename(12, 5, None) == "12_05.png"
  {
    TwoFieldParse();
    TwoFieldBuild();
  }

  lemma TwoFieldBuild()
    ensures BuildNewFilename(12, 5, None) == "12_05.png"
  {
    PadTwoDigits(12);
    PadOneDigit(5);
    assert NewStem(12, 5, None) == Pad(12) + "_" + Pad(5);
  }

  lemma TwoFieldParse()
    ensures ParseFilename("12_5.png") == Parsed(Key(12, 5, None))
  {
    TwoFieldFields();
    TwoFieldValues();
    ParseTwoFields("12_5.png", "12", "5", 12, 5);
  }

  lemma TwoFieldFields()
    ensures Fields("12_5.png") == ["12", "5"]
  {
    DigitNotPng('5');
    assert "12_5.png" == "12_5" + ".png";
    FieldsOfPngName("12_5");
    assert "12_5" == "12" + ['_'] + "5";
    SplitTwo("12", "5", '_');
  }

  lemma TwoFieldValues()
    ensures ParseInt("12") == Some(12) && ParseInt("5") == Some(5)
  {
    assert NatToString(12) == [DigitChar(1), DigitChar(2)];
    ParseDecimal(12);
    assert NatToString(5) == [DigitChar(5)];
    ParseDecimal(5);
  }

  /** `1_2_3.png` has three fields and becomes `01_02_03.png`. */
  lemma ThreeFieldExample()
    ensures ParseFilename("1_2_3.png") == Parsed(Key(1, 2, Some(3)))
    ensures BuildNewFilename(1, 2, Some(3)) == "01_02_03.png"
  {
    ThreeFieldParse();
    ThreeFieldBuild();
  }

  lemma ThreeFieldBuild()
    ensures BuildNewFilename(1, 2, Some(3)) == "01_02_03.png"
  {
    PadOneDigit(1);
    PadOneDigit(2);
    PadOneDigit(3);
    var stem := NewStem(1, 2, Some(3));
    assert stem == Pad(1) + "_" + Pad(2) + "_" + Pad(3);
    assert stem == "01_02_03";
  }

  lemma ThreeFieldParse()
    ensures ParseFilename("1_2_3.png") == Parsed(Key(1, 2, Some(3)))
  {
    DigitNotPng('3');
    assert "1_2_3.png" == "1_2_3" + ".png";
    FieldsOfPngName("1_2_3");
    assert "1_2_3" == "1" + ['_'] + "2" + ['_'] + "3";
    SplitThree("1", "2", "3", '_');
    assert NatToString(1) == [DigitChar(1)];
    assert NatToString(2) == [DigitChar(2)];
    assert NatToString(3) == [DigitChar(3)];
    ParseDecimal(1);
    ParseDecimal(2);
    ParseDecimal(3);
    ParseThreeFields("1_2_3.png", "1", "2", "3", 1, 2, 3);
  }

  /** `chapter1.png` has a single field and is skipped, not an error. */
  lemma OneFieldExample()
    ensures ParseFilename("chapter1.png") == Skip
  {
    DigitNotPng('1');
    assert "chapter1.png" == "chapter1" + ".png";
    FieldsOfPngName("chapter1");
    SplitSingleField("chapter1", '_');
  }

  /** `a_b.png` has two fields, so it is not skipped: `int('a')` fails. */
  lemma MalformedExample()
    ensures ParseFilename("a_b.png") == Malformed("a")
  {
    assert "a_b.png" == "a_b" + ".png";
    FieldsOfPngName("a_b");
    assert "a_b" == "a" + ['_'] + "b";
    SplitTwo("a", "b", '_');
    assert !IsIntLiteral("a");
  }

  /** `rstrip('.png')` strips a character set, not a suffix: both
      extensions of `1_2.png.png` go, and the name parses as `(1, 2)`. */
  lemma DoubleExtensionExample()
    ensures ParseFilename("1_2.png.png") == Parsed(Key(1, 2, None))
  {
    var ext := ".png.png";
    assert ext == ['.', 'p', 'n', 'g', '.', 'p', 'n', 'g'];
    assert forall i :: 0 <= i < |ext| ==> ext[i] in PngChars;
    DigitNotPng('2');
    assert "1_2.png.png" == "1_2" + ext;
    RStripSuffix("1_2", ext, PngChars);
    assert "1_2" == "1" + ['_'] + "2";
    SplitTwo("1", "2", '_');
    assert NatToString(1) == [DigitChar(1)];
    assert NatToString(2) == [DigitChar(2)];
    ParseDecimal(1);
    ParseDecimal(2);
    ParseTwoFields("1_2.png.png", "1", "2", 1, 2);
  }
}
