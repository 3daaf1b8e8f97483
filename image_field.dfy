/**
 * The `image_url` column of `iv_visits`: one text field that holds no image
 * (null), a legacy bare URL, or a JSON array of URLs; the shape is sniffed
 * when the field is read.
 */
module ImageField {
  import opened Wrappers
  import Json

  /**
   * A value of the column as the client receives it: null, a string, or an
   * already structured array (which the readers pass through unchanged).
   */
  datatype RawImageField = Null | Str(text: string) | Arr(urls: seq<string>)

  /**
   * The read rule applied wherever the column is read: a falsy value gives no
   * images, a string starting with `[` is parsed as JSON, any other string is
   * one URL, an array passes through. `None` stands for JSON.parse throwing.
   */
  function Decode(raw: RawImageField): Option<seq<string>>
  {
    match raw
    case Null => Some([])
    case Str(s) =>
      if s == "" then Some([])
      else if s[0] == '[' then Json.ParseStringArray(s)
      else Some([s])
    case Arr(urls) => Some(urls)
  }

  /** What the delete path writes back: null for an empty list, the JSON text otherwise. */
  function EncodeField(urls: seq<string>): RawImageField
  {
    if |urls| > 0 then Str(Json.Stringify(urls)) else Null
  }

  /** What the upload path writes back: always the JSON text. */
  function UploadField(urls: seq<string>): RawImageField
  {
    Str(Json.Stringify(urls))
  }

  /** Decoding what the delete path wrote gives the list back, and an empty list is stored as null. */
  lemma DecodeEncodeField(urls: seq<string>)
    ensures Decode(EncodeField(urls)) == Some(urls)
    ensures EncodeField(urls) == Null <==> urls == []
  {
    if urls != [] {
      Json.RoundTrip(urls);
    }
  }

  /** Decoding what the upload path wrote gives the list back, and it is never null. */
  lemma DecodeUploadField(urls: seq<string>)
    ensures Decode(UploadField(urls)) == Some(urls)
    ensures UploadField(urls) != Null && UploadField(urls).text != ""
  {
    Json.RoundTrip(urls);
  }

  /** A legacy bare URL (a non-empty string that does not start with `[`) is a one-image list. */
  lemma DecodeLegacy(url: string)
    requires url != "" && url[0] != '['
    ensures Decode(Str(url)) == Some([url])
  {
  }

  /** The worked examples of the image-list format. */
  lemma DecodeExamples()
    ensures Decode(Null) == Some([]) && Decode(Str("")) == Some([])
    ensures Decode(Str("http://x/a.png")) == Some(["http://x/a.png"])
    ensures EncodeField([]) == Null
  {
  }

  lemma StringifyExamples()
    ensures Json.Stringify(["a"]) == "[\"a\"]"
    ensures Json.Stringify(["a", "b"]) == "[\"a\",\"b\"]"
  {
    assert Json.EscapeBody("a") == "a";
    assert Json.EscapeBody("b") == "b";
    assert Json.Items(["a", "b"]) == Json.Quote("a") + "," + Json.Items(["b"]);
  }

  lemma DecodeArrayExample()
    ensures Decode(Str("[\"a\",\"b\"]")) == Some(["a", "b"])
    ensures EncodeField(["a"]) == Str("[\"a\"]")
  {
    StringifyExamples();
    Json.RoundTrip(["a", "b"]);
  }

  /** A legacy value that merely starts with `[` is read as JSON, and a malformed one fails. */
  lemma DecodeMalformed()
    ensures Decode(Str("[http://x/a.png")) == None
  {
    var s := "[http://x/a.png";
    var u := s[1..];
    assert s[0] == '[' && !Json.IsJsonSpace(s[0]);
    assert Json.SkipWs(s) == s;
    assert u[0] == 'h' && !Json.IsJsonSpace(u[0]);
    assert Json.SkipWs(u) == u;
    assert Json.ParseItems(u) == None;
  }
}
