/** `formatResolution` (src/utilities.js lines 78-86): a case-insensitive
    match against the four geographic resolutions Google Trends accepts. */
module Resolution {
  import opened Outcomes
  import opened JsValues

  const Resolutions: seq<string> := ["COUNTRY", "REGION", "CITY", "DMA"]

  /** `toUpperCase` on one character, as far as it can matter here: ASCII
      letters, and the dotless i (U+0131), whose capital is the ASCII `I`.
      Every other character is left as it is. */
  function UpperChar(c: char): (u: char)
    ensures 'a' <= c <= 'z' ==> u as int == c as int - 32
    ensures !('a' <= c <= 'z') && c != '\U{0131}' ==> u == c
  {
    if 'a' <= c <= 'z' then (c as int - 32) as char
    else if c == '\U{0131}' then 'I'
    else c
  }

  /** `s.toUpperCase()`, character by character. */
  function ToUpperCase(s: string): (u: string)
    ensures |u| == |s|
    ensures forall i :: 0 <= i < |s| ==> u[i] == UpperChar(s[i])
  {
    if s == [] then [] else [UpperChar(s[0])] + ToUpperCase(s[1..])
  }

  /** No character of an upper-case ASCII word is changed by `UpperChar`. */
  predicate IsUpperWord(s: string) {
    forall i :: 0 <= i < |s| ==> 'A' <= s[i] <= 'Z'
  }

  /** `formatResolution(resolution = '')`: `undefined` takes the default
      `''`; a string is upper-cased and kept only when it names one of the
      four resolutions; any other value has no `toUpperCase` method and the
      call throws a TypeError. */
  function FormatResolution(resolution: Value): (r: Result<string, Fault>)
    ensures r.Success? <==> resolution.Undefined? || resolution.Str?
    ensures r.Failure? ==> r.error == TypeError
    ensures r.Success? ==> r.value == "" || r.value in Resolutions
    ensures resolution.Str? && ToUpperCase(resolution.s) in Resolutions ==> r == Success(ToUpperCase(resolution.s))
    ensures resolution.Str? && ToUpperCase(resolution.s) !in Resolutions ==> r == Success("")
  {
    match resolution
    case Undefined => Success("")
    case Str(s) =>
      var upper := ToUpperCase(s);
      if upper in Resolutions then Success(upper) else Success("")
    case _ => Failure(TypeError)
  }

  /** Upper-casing a word that is already upper-case ASCII changes nothing. */
  lemma {:induction false} UpperWordFixed(s: string)
    requires IsUpperWord(s)
    ensures ToUpperCase(s) == s
  {
    if s != [] {
      assert IsUpperWord(s[1..]) by {
        forall i | 0 <= i < |s[1..]| ensures 'A' <= s[1..][i] <= 'Z' {
          assert s[1..][i] == s[i + 1];
        }
      }
      UpperWordFixed(s[1..]);
    }
  }

  /** The four names are their own upper case. */
  lemma ResolutionsAreUpperCase(w: string)
    requires w in Resolutions
    ensures ToUpperCase(w) == w
  {
    assert IsUpperWord(w) by {
      assert w == Resolutions[0] || w == Resolutions[1] || w == Resolutions[2] || w == Resolutions[3];
    }
    UpperWordFixed(w);
  }

  /** `formatResolution` is idempotent: what it returns, passed back in,
      comes out unchanged. */
  lemma FormatResolutionIdempotent(resolution: Value)
    requires FormatResolution(resolution).Success?
    ensures FormatResolution(Str(FormatResolution(resolution).value)) == FormatResolution(resolution)
  {
    var r := FormatResolution(resolution).value;
    if r != "" {
      ResolutionsAreUpperCase(r);
    } else {
      assert ToUpperCase(r) == "";
      assert "" !in Resolutions by {
        assert "" != Resolutions[0] && "" != Resolutions[1] && "" != Resolutions[2] && "" != Resolutions[3];
      }
    }
  }

  /** The match ignores case: "city", "City" and "CITY" all give `CITY`, and
      so does "c\u0131ty" with a dotless i. */
  lemma CaseInsensitiveExamples()
    ensures FormatResolution(Str("city")) == Success("CITY")
    ensures FormatResolution(Str("City")) == Success("CITY")
    ensures FormatResolution(Str("c\U{0131}ty")) == Success("CITY")
    ensures FormatResolution(Str("dma")) == Success("DMA")
  {
    assert ToUpperCase("city") == "CITY";
    assert ToUpperCase("City") == "CITY";
    assert ToUpperCase("c\U{0131}ty") == "CITY";
    assert ToUpperCase("dma") == "DMA";
  }

  /** Other words give `''`, and so does the default argument; a number
      throws. */
  lemma RejectedExamples()
    ensures FormatResolution(Str("planet")) == Success("")
    ensures FormatResolution(Undefined) == Success("")
    ensures FormatResolution(Num(1)) == Failure(TypeError)
  {
    assert ToUpperCase("planet") == "PLANET";
  }
}
