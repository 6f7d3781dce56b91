/**
 * Choosing a codec by file extension: getReader (src/ex00/readDB.go:115-125,
 * the same switch at src/ex01/compareDB.go:114-124) and the converter's choice
 * of the opposite output format (src/ex00/readDB.go:162-168).
 */
module FileExt {
  import opened Wrappers

  datatype DbFormat = Json | Xml

  function Opposite(f: DbFormat): DbFormat {
    match f
    case Json => Xml
    case Xml => Json
  }

  /** filepath.Ext with '/' as the only separator: the suffix from the final
      dot of the final path element, or "" when that element has no dot. */
  function Ext(path: string): (r: string)
    ensures r == "" || (r[0] == '.' && |r| <= |path| && r == path[|path| - |r|..])
    ensures forall k :: 0 < k < |r| ==> r[k] != '.' && r[k] != '/'
    ensures r == "" ==> forall k :: 0 <= k < |path| && path[k] == '.' ==>
                          exists m :: k < m < |path| && path[m] == '/'
  {
    if path == "" then ""
    else
      var init, c := path[..|path| - 1], path[|path| - 1];
      if c == '/' then ""
      else if c == '.' then "."
      else
        var e := Ext(init);
        assert forall k :: 0 <= k < |init| ==> init[k] == path[k];
        if e == "" then "" else e + [c]
  }

  /** getReader: exactly ".json" and ".xml", compared case-sensitively. */
  function GetReader(path: string): (r: Result<DbFormat, string>)
    ensures r == Ok(Json) <==> Ext(path) == ".json"
    ensures r == Ok(Xml) <==> Ext(path) == ".xml"
    ensures r.Err? ==> r.error == "unsupported file extension: " + Ext(path)
  {
    var ext := Ext(path);
    if ext == ".json" then Ok(Json)
    else if ext == ".xml" then Ok(Xml)
    else Err("unsupported file extension: " + ext)
  }

  /** unicode.ToLower on an ASCII letter; every other character is kept. */
  function LowerChar(c: char): char {
    if 'A' <= c <= 'Z' then (c as int + 32) as char else c
  }

  /** strings.ToLower, character by character. */
  function ToLower(s: string): (r: string)
    ensures |r| == |s|
    ensures forall k :: 0 <= k < |s| ==> r[k] == LowerChar(s[k])
  {
    if s == "" then "" else [LowerChar(s[0])] + ToLower(s[1..])
  }

  /** The converter's output format: the opposite of the input's, chosen on
      the lower-cased extension; None stands for the empty format string
      that any other extension leaves behind. */
  function OutputFormat(path: string): (r: Option<DbFormat>)
    ensures r == Some(Xml) <==> ToLower(Ext(path)) == ".json"
    ensures r == Some(Json) <==> ToLower(Ext(path)) == ".xml"
  {
    var ext := ToLower(Ext(path));
    if ext == ".json" then Some(Xml)
    else if ext == ".xml" then Some(Json)
    else None
  }

  /** Lower-casing leaves a string without capital letters as it is. */
  lemma ToLowerOfLower(s: string)
    requires forall k :: 0 <= k < |s| ==> !('A' <= s[k] <= 'Z')
    ensures ToLower(s) == s
  {
  }

  /** Whenever getReader accepts a file, the converter writes the other format. */
  lemma ConvertsToOpposite(path: string)
    requires GetReader(path).Ok?
    ensures OutputFormat(path) == Some(Opposite(GetReader(path).value))
  {
    if Ext(path) == ".json" {
      ToLowerOfLower(".json");
    } else {
      ToLowerOfLower(".xml");
    }
  }

  /** The extension is everything from the final dot when no separator
      follows it. */
  lemma {:induction false} ExtAfterDot(dir: string, suffix: string)
    requires forall k :: 0 <= k < |suffix| ==> suffix[k] != '.' && suffix[k] != '/'
    ensures Ext(dir + "." + suffix) == "." + suffix
  {
    if suffix != "" {
      var init := suffix[..|suffix| - 1];
      assert (dir + "." + suffix)[..|dir + "." + suffix| - 1] == dir + "." + init;
      ExtAfterDot(dir, init);
      assert "." + init + [suffix[|suffix| - 1]] == "." + suffix;
    }
  }

  /** A final path element without a dot has no extension. */
  lemma {:induction false} ExtAfterSeparator(dir: string, name: string)
    requires forall k :: 0 <= k < |name| ==> name[k] != '.' && name[k] != '/'
    ensures Ext(dir + "/" + name) == ""
  {
    if name != "" {
      var init := name[..|name| - 1];
      assert (dir + "/" + name)[..|dir + "/" + name| - 1] == dir + "/" + init;
      ExtAfterSeparator(dir, init);
    }
  }

  lemma UpperCaseExt()
    ensures Ext("recipes.JSON") == ".JSON"
  {
    ExtAfterDot("recipes", "JSON");
    assert "recipes" + "." + "JSON" == "recipes.JSON";
  }

  /** An upper-case extension is refused by getReader ... */
  lemma UpperCaseRejected()
    ensures GetReader("recipes.JSON") == Err("unsupported file extension: .JSON")
  {
    UpperCaseExt();
    assert ".JSON" != ".json" && ".JSON" != ".xml";
    assert "unsupported file extension: " + ".JSON" == "unsupported file extension: .JSON";
  }

  /** ... although the output format choice alone would accept it. */
  lemma UpperCaseConverted()
    ensures OutputFormat("recipes.JSON") == Some(Xml)
  {
    UpperCaseExt();
    assert ToLower(".JSON") == ".json";
  }

  /** A dot in a directory name is not an extension. */
  lemma DotInDirectory()
    ensures GetReader("v1.2/recipes") == Err("unsupported file extension: ")
  {
    ExtAfterSeparator("v1.2", "recipes");
    assert "v1.2" + "/" + "recipes" == "v1.2/recipes";
    assert "unsupported file extension: " + "" == "unsupported file extension: ";
  }
}
