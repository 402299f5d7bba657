/** The export dialog: the text copied to the clipboard (`exportColors`) and the
    line shown for each colour. Both are pure functions of the colour list. */
module Export {
  import opened Types
  import opened Text
  import PaletteLists

  /** `name.toLowerCase().replace(" ", "-")`: lower-case the name, then turn only its
      first space into a hyphen. */
  function Slug(name: string): (r: string)
    ensures |r| == |name|
    ensures forall i :: 0 <= i < |name| ==>
      r[i] == if name[i] == ' ' && ' ' !in name[..i] then '-' else LowerChar(name[i])
  {
    var lower := ToLower(name);
    assert forall i :: 0 <= i <= |name| ==> (' ' in lower[..i] <==> ' ' in name[..i]) by {
      forall i | 0 <= i <= |name| ensures ' ' in lower[..i] <==> ' ' in name[..i] {
        assert forall j :: 0 <= j < i ==> (lower[..i][j] == ' ' <==> name[..i][j] == ' ');
      }
    }
    ReplaceFirst(lower, ' ', '-')
  }

  /** A name without a space is only lower-cased. */
  lemma SlugWithoutSpace(name: string)
    requires ' ' !in name
    ensures Slug(name) == ToLower(name)
  {
  }

  /** Only the first space becomes a hyphen: the later ones stay. */
  lemma SlugDeepSeaBlue()
    ensures Slug("Deep Sea Blue") == "deep-sea blue"
  {
    var n := "Deep Sea Blue";
    var r := Slug(n);
    assert n[4] == ' ' && ' ' !in n[..4];
    assert n[8] == ' ' && ' ' in n[..8] by { assert n[..8][4] == ' '; }
    forall i | 0 <= i < |n| ensures r[i] == "deep-sea blue"[i] {
      if i > 4 {
        assert n[..i][4] == ' ';
      }
    }
  }

  /** One exported line: the slug, a colon and a space, then the value as stored. */
  function ExportLine(c: Color): (line: string)
    ensures |line| == |c.name| + 2 + |c.value|
    ensures line[..|c.name|] == Slug(c.name) && line[|c.name|..|c.name| + 2] == ": "
    ensures line[|c.name| + 2..] == c.value
  {
    Slug(c.name) + ": " + c.value
  }

  function ExportLines(colors: seq<Color>): (lines: seq<string>)
    ensures |lines| == |colors|
    ensures forall i :: 0 <= i < |colors| ==> lines[i] == ExportLine(colors[i])
  {
    if colors == [] then [] else [ExportLine(colors[0])] + ExportLines(colors[1..])
  }

  /** `exportColors`: one line per colour in list order, joined by "\n". */
  function ExportColors(colors: seq<Color>): (text: string)
    ensures colors == [] ==> text == ""
    ensures |colors| == 1 ==> text == ExportLine(colors[0])
  {
    Join(ExportLines(colors), "\n")
  }

  /** Neither the name nor the value of any colour holds a line break. */
  predicate SingleLine(colors: seq<Color>) {
    forall i :: 0 <= i < |colors| ==> '\n' !in colors[i].name && '\n' !in colors[i].value
  }

  /** The copied text splits back into exactly the colours' lines, in order: one line per
      colour, no trailing newline. */
  lemma ExportSplitsIntoLines(colors: seq<Color>)
    requires colors != [] && SingleLine(colors)
    ensures Split(ExportColors(colors), '\n') == ExportLines(colors)
  {
    var lines := ExportLines(colors);
    forall i | 0 <= i < |lines| ensures '\n' !in lines[i] {
      var c := colors[i];
      var slug := Slug(c.name);
      forall j | 0 <= j < |slug| ensures slug[j] != '\n' {
        assert c.name[j] != '\n' by { assert c.name[j] in c.name; }
      }
      assert lines[i] == slug + ": " + c.value;
    }
    SplitJoin(lines, '\n');
  }

  /** The line the dialog shows for a colour: the same slug, but the value upper-cased. */
  function DisplayLine(c: Color): (line: string)
    ensures |line| == |ExportLine(c)|
    ensures line[..|c.name| + 2] == ExportLine(c)[..|c.name| + 2]
    ensures line[|c.name| + 2..] == ToUpper(c.value)
  {
    Slug(c.name) + ": " + ToUpper(c.value)
  }

  /** The shown line and the copied line agree exactly when the stored value has no
      lower-case letter. */
  lemma DisplayMatchesExport(c: Color)
    ensures DisplayLine(c) == ExportLine(c) <==> ToUpper(c.value) == c.value
  {
    var prefix := Slug(c.name) + ": ";
    if DisplayLine(c) == ExportLine(c) {
      assert ToUpper(c.value) == DisplayLine(c)[|prefix|..];
      assert c.value == ExportLine(c)[|prefix|..];
    }
  }

  /** The first colour of the default palette is shown as "untitled-color: #4CC9F0" but
      copied as "untitled-color: #4cc9f0". */
  lemma DefaultColorShownDifferently(id: string)
    ensures DisplayLine(Color(id, PaletteLists.UntitledColor, PaletteLists.DefaultValues[0])) != ExportLine(Color(id, PaletteLists.UntitledColor, PaletteLists.DefaultValues[0]))
  {
    var v := PaletteLists.DefaultValues[0];
    assert ToUpper(v)[2] == 'C' != v[2];
    DisplayMatchesExport(Color(id, PaletteLists.UntitledColor, v));
  }

  /** The copied text keeps the value as stored: "Deep Sea" with "#abc123" is copied as
      "deep-sea: #abc123". */
  lemma ExportDeepSea(id: string)
    ensures ExportColors([Color(id, "Deep Sea", "#abc123")]) == "deep-sea: #abc123"
  {
    var n := "Deep Sea";
    var r := Slug(n);
    assert n[4] == ' ' && ' ' !in n[..4];
    forall i | 0 <= i < |n| ensures r[i] == "deep-sea"[i] {
    }
  }
}
