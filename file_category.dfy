/**
 * The client's classification of a selected file by its MIME type
 * (getFileCategory), used to choose a preview and an icon.
 */
module FileCategory {

  datatype Category = Image | Video | Audio | Document | Other

  /** `w` is a prefix of `s` (String.prototype.startsWith, case-sensitive). */
  predicate StartsWith(s: string, w: string)
  {
    |w| <= |s| && s[..|w|] == w
  }

  /** Reference meaning of a substring match: `w` occurs at some position of `s`. */
  ghost predicate Occurs(s: string, w: string)
  {
    exists i :: 0 <= i <= |s| && StartsWith(s[i..], w)
  }

  /** The search the regular expression performs: try each position from the left. */
  function Contains(s: string, w: string): (b: bool)
    decreases |s|
  {
    if StartsWith(s, w) then true
    else if s == [] then false
    else Contains(s[1..], w)
  }

  lemma {:induction false} ContainsMeansOccurs(s: string, w: string)
    ensures Contains(s, w) <==> Occurs(s, w)
    decreases |s|
  {
    if StartsWith(s, w) {
      assert s[0..] == s;
    } else if s == [] {
      forall i | 0 <= i <= |s| ensures !StartsWith(s[i..], w) {
        assert s[i..] == s;
      }
    } else {
      ContainsMeansOccurs(s[1..], w);
      if Occurs(s, w) {
        var i :| 0 <= i <= |s| && StartsWith(s[i..], w);
        assert i != 0 by { assert s[0..] == s; }
        assert s[1..][i - 1..] == s[i..];
      }
      if Occurs(s[1..], w) {
        var j :| 0 <= j <= |s[1..]| && StartsWith(s[1..][j..], w);
        assert s[j + 1..] == s[1..][j..];
      }
    }
  }

  /** The regular expression /(pdf|msword|officedocument)/ matches somewhere in the type. */
  predicate LooksLikeDocument(mime: string)
  {
    Contains(mime, "pdf") || Contains(mime, "msword") || Contains(mime, "officedocument")
  }

  /** getFileCategory: the first test that holds, in order image, video, audio, document. */
  function GetFileCategory(mime: string): (c: Category)
    ensures c == Image <==> StartsWith(mime, "image/")
    ensures c == Video <==> !StartsWith(mime, "image/") && StartsWith(mime, "video/")
    ensures c == Audio <==>
              !StartsWith(mime, "image/") && !StartsWith(mime, "video/") && StartsWith(mime, "audio/")
    ensures c == Document <==>
              && !StartsWith(mime, "image/") && !StartsWith(mime, "video/") && !StartsWith(mime, "audio/")
              && (Occurs(mime, "pdf") || Occurs(mime, "msword") || Occurs(mime, "officedocument"))
  {
    ContainsMeansOccurs(mime, "pdf");
    ContainsMeansOccurs(mime, "msword");
    ContainsMeansOccurs(mime, "officedocument");
    if StartsWith(mime, "image/") then Image
    else if StartsWith(mime, "video/") then Video
    else if StartsWith(mime, "audio/") then Audio
    else if LooksLikeDocument(mime) then Document
    else Other
  }

  /** The prefixes are tested before the document pattern: "image/…pdf…" is an image. */
  lemma PrefixBeatsDocument(mime: string, rest: string)
    requires mime == "image/" + rest
    ensures GetFileCategory(mime) == Image
  {
    assert mime[..6] == "image/";
  }

  /**
   * An application type that names an Office Open XML format
   * ("application/vnd.openxmlformats-officedocument.…") is a document.
   */
  lemma OfficeDocumentType(mime: string, vendor: string, kind: string)
    requires mime == "application/" + vendor + "officedocument" + kind
    ensures GetFileCategory(mime) == Document
  {
    var head := "application/";
    assert mime[0] == head[0] == 'a';
    assert mime[..6][0] == 'a';
    assert "image/"[0] == 'i' && "video/"[0] == 'v' && "audio/"[0] == 'a';
    assert "audio/"[1] == 'u' && mime[..6][1] == head[1] == 'p';
    var at := |head| + |vendor|;
    assert mime[at..][..14] == "officedocument";
    assert StartsWith(mime[at..], "officedocument");
  }

  /** An empty type (the browser could not tell) is Other. */
  lemma EmptyTypeIsOther()
    ensures GetFileCategory("") == Other
  {
  }
}
