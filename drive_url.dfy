/**
 * `Utils.convertGoogleDriveUrl`: turns the image cell of a catalogue row into
 * a URL the page can display. A bare Drive file id, or a Drive link that
 * names its file id, becomes a direct thumbnail URL; anything else is
 * returned as it came.
 */
module DriveUrl {
  import opened Strings

  /** The Drive host, and the origin of the direct-display URL built on it. */
  const Host := "drive.google.com"
  const Origin := "https://" + Host

  /** The direct-display URL: `ThumbnailHead`, the file id, then `ThumbnailTail`. */
  const ThumbnailPrefix := Origin + "/thumbnail?"
  const ThumbnailHead := ThumbnailPrefix + "id="
  const Size := "w400-h400"
  const ThumbnailTail := "&sz=" + Size

  /** The direct-display URL built around a Drive file id. */
  function Thumbnail(fileId: string): (t: string)
    ensures |t| == |ThumbnailHead| + |fileId| + |ThumbnailTail|
    ensures t[|ThumbnailHead|..|t| - |ThumbnailTail|] == fileId
  {
    ThumbnailHead + fileId + ThumbnailTail
  }

  /** A bare Drive file id: longer than 20 and shorter than 50 characters, with neither "http" nor "." in it. */
  predicate IsBareId(url: string): (b: bool)
    ensures b ==> 20 < |url| < 50 && '.' !in url
  {
    IncludesChar(url, '.');
    20 < |url| < 50 && !Includes(url, "http") && !Includes(url, ".")
  }

  /**
   * The file id read out of a Drive link: the text after the first "id=" up to
   * the next "&", otherwise the text after the first "/file/d/" up to the
   * next "/"; empty when the link has neither.
   */
  function FileId(url: string): (id: string)
    ensures !Includes(url, "id=") && !Includes(url, "/file/d/") ==> id == ""
    ensures Includes(url, "id=") ==> '&' !in id && !Includes(id, "id=")
  {
    if Includes(url, "id=") then
      var query := Split(url, "id=")[1];
      var id := Split(query, "&")[0];
      IncludesChar(id, '&');
      SplitExcludes(query, "&", "id=");
      id
    else if Includes(url, "/file/d/") then
      Split(Split(url, "/file/d/")[1], "/")[0]
    else
      ""
  }

  /** `Utils.convertGoogleDriveUrl`. */
  function ConvertGoogleDriveUrl(url: string): (r: string)
    ensures url == "" ==> r == ""
    ensures url != "" ==> r != ""
    ensures IsBareId(url) ==> r == Thumbnail(url)
    ensures !IsBareId(url) && !Includes(url, Host) ==> r == url
    ensures !IsBareId(url) && Includes(url, Host) && FileId(url) != "" ==> r == Thumbnail(FileId(url))
    ensures !IsBareId(url) && FileId(url) == "" ==> r == url
    ensures r == url || r == Thumbnail(url) || r == Thumbnail(FileId(url))
  {
    if url == "" then url
    else if IsBareId(url) then Thumbnail(url)
    else if Includes(url, Host) && FileId(url) != "" then Thumbnail(FileId(url))
    else url
  }

  /** Whatever follows a string naming the Drive host, the whole contains a dot. */
  lemma DriveHostHasDot(a: string, b: string)
    requires Includes(a, Host)
    ensures Includes(a + b, ".")
  {
    var j := IndexOf(a, Host);
    assert a[j + 5] == Host[5] == '.';
    assert OccursAt(a + b, ".", j + 5);
  }

  /** A string naming the Drive host is never taken for a bare id. */
  lemma DriveHostIsNotBareId(a: string, b: string)
    requires Includes(a, Host)
    ensures Includes(a + b, Host)
    ensures !IsBareId(a + b)
  {
    IndexOfExtend(a, b, Host);
    DriveHostHasDot(a, b);
  }

  /**
   * A Drive link of the query form, `a` + "id=" + id + `rest` with the host in
   * `a`, is rewritten to the thumbnail of `id` when `rest` is empty or starts
   * a new parameter with "&".
   */
  lemma QueryLinkRewrite(a: string, id: string, rest: string)
    requires Includes(a, Host) && !Includes(a, "id=")
    requires id != "" && '&' !in id && !Includes(id, "id=")
    requires rest == "" || rest[0] == '&'
    ensures ConvertGoogleDriveUrl(a + "id=" + id + rest) == Thumbnail(id)
  {
    QueryLinkIsDriveLink(a, id, rest);
    QueryFileId(a, id, rest);
  }

  /** A query-form link built on a prefix naming the Drive host is a Drive link and not a bare id. */
  lemma QueryLinkIsDriveLink(a: string, id: string, rest: string)
    requires Includes(a, Host)
    ensures Includes(a + "id=" + id + rest, Host) && !IsBareId(a + "id=" + id + rest)
  {
    Regroup(a, "id=", id, rest);
    DriveHostIsNotBareId(a, "id=" + id + rest);
  }

  /**
   * The id read out of `a` + "id=" + id + `rest` is `id`, when `rest` is
   * empty or starts with "&", whatever parameters follow in `rest`.
   */
  lemma QueryFileId(a: string, id: string, rest: string)
    requires !Includes(a, "id=")
    requires '&' !in id && !Includes(id, "id=")
    requires rest == "" || rest[0] == '&'
    ensures FileId(a + "id=" + id + rest) == id
  {
    var tail := id + rest;
    assert a + "id=" + id + rest == a + "id=" + tail;
    IndexOfAppended(a, "id=");
    SplitSecondPiece(a, "id=", tail);
    QueryPiece(id, rest);
  }

  /**
   * After "id=", the first piece up to the next "id=" is `id` followed by a
   * prefix of `rest`, and that prefix is empty or starts with "&"; so the
   * piece up to the first "&" is `id`.
   */
  lemma QueryPiece(id: string, rest: string)
    requires '&' !in id && !Includes(id, "id=")
    requires rest == "" || rest[0] == '&'
    ensures Split(Split(id + rest, "id=")[0], "&")[0] == id
  {
    var pat := "id=";
    assert rest == "" || rest[0] !in pat[1..];
    NoStartInside(id, rest, pat);
    SplitHeadShift(id, rest, pat);
    var t := Split(rest, pat)[0];
    assert t == "" || t[0] == '&';
    SplitHeadBeforeChar(id, t, '&');
  }

  /**
   * After "/file/d/", the first piece runs to the next "/file/d/": when `id`
   * has no "/" that piece is `id` followed by a prefix of `rest`.
   */
  lemma PieceAfterPathMarker(id: string, rest: string)
    requires '/' !in id
    ensures Split(id + rest, "/file/d/")[0] ==
      id + (if Includes(rest, "/file/d/") then rest[..IndexOf(rest, "/file/d/")] else rest)
  {
    NoEarlyOccurrence(id, rest, "/file/d/");
    IndexOfSkip(id, rest, "/file/d/");
    if Includes(rest, "/file/d/") {
      assert (id + rest)[..|id| + IndexOf(rest, "/file/d/")] == id + rest[..IndexOf(rest, "/file/d/")];
    }
  }

  /** In a path-form link, the segment after the first "/file/d/" and before the next "/" is `id`. */
  lemma PathSegment(a: string, id: string, rest: string)
    requires IndexOf(a + "/file/d/", "/file/d/") == |a|
    requires id != "" && '/' !in id
    requires rest == "" || rest[0] == '/'
    ensures |Split(a + "/file/d/" + id + rest, "/file/d/")| > 1
    ensures Split(Split(a + "/file/d/" + id + rest, "/file/d/")[1], "/")[0] == id
  {
    PathSecondPiece(a, id, rest);
    PieceAfterPathMarker(id, rest);
    var tail := if Includes(rest, "/file/d/") then rest[..IndexOf(rest, "/file/d/")] else rest;
    SplitHeadBeforeChar(id, tail, '/');
  }

  /** In a path-form link, the piece after the first "/file/d/" is the first piece of what follows it. */
  lemma PathSecondPiece(a: string, id: string, rest: string)
    requires IndexOf(a + "/file/d/", "/file/d/") == |a|
    ensures |Split(a + "/file/d/" + id + rest, "/file/d/")| > 1
    ensures Split(a + "/file/d/" + id + rest, "/file/d/")[1] == Split(id + rest, "/file/d/")[0]
  {
    assert a + "/file/d/" + id + rest == a + "/file/d/" + (id + rest);
    SplitSecondPiece(a, "/file/d/", id + rest);
  }

  /** Without "id=", the file id of a link is the segment after "/file/d/". */
  lemma PathFileId(url: string)
    requires !Includes(url, "id=")
    requires |Split(url, "/file/d/")| > 1
    ensures FileId(url) == Split(Split(url, "/file/d/")[1], "/")[0]
  {
  }

  /** The file id of a path-form link is the segment after "/file/d/". */
  lemma PathLinkFileId(a: string, id: string, rest: string)
    requires IndexOf(a + "/file/d/", "/file/d/") == |a|
    requires id != "" && '/' !in id
    requires rest == "" || rest[0] == '/'
    requires !Includes(a + "/file/d/" + id + rest, "id=")
    ensures FileId(a + "/file/d/" + id + rest) == id
  {
    PathSegment(a, id, rest);
    PathFileId(a + "/file/d/" + id + rest);
  }

  /**
   * A Drive link of the path form, `a` + "/file/d/" + id + `rest` with the host
   * in `a` and no "id=" anywhere, is rewritten to the thumbnail of `id` when
   * `rest` is empty or starts a new path segment.
   */
  lemma PathLinkRewrite(a: string, id: string, rest: string)
    requires Includes(a, Host)
    requires IndexOf(a + "/file/d/", "/file/d/") == |a|
    requires id != "" && '/' !in id
    requires rest == "" || rest[0] == '/'
    requires !Includes(a + "/file/d/" + id + rest, "id=")
    ensures ConvertGoogleDriveUrl(a + "/file/d/" + id + rest) == Thumbnail(id)
  {
    var url := a + "/file/d/" + id + rest;
    assert !IsBareId(url) && Includes(url, Host) by {
      Regroup(a, "/file/d/", id, rest);
      DriveHostIsNotBareId(a, "/file/d/" + id + rest);
    }
    assert FileId(url) == id by {
      PathLinkFileId(a, id, rest);
    }
  }

  /** The thumbnail prefix names the Drive host and has no "id=" of its own. */
  lemma ThumbnailPrefixShape()
    ensures Includes(ThumbnailPrefix, Host)
    ensures !Includes(ThumbnailPrefix, "id=")
  {
    OriginShape();
    IndexOfExtend(Origin, "/thumbnail?", Host);
    OriginLacksEquals();
    assert '=' !in "/thumbnail?";
    var q := "id=";
    assert q[2] == '=';
    CharAbsent(ThumbnailPrefix, q, 2);
  }

  /**
   * Extraction undoes construction: a thumbnail URL built from a clean id is
   * mapped to itself, so the stored image of a product survives another pass.
   */
  lemma ThumbnailIsFixedPoint(id: string)
    requires id != "" && '&' !in id && !Includes(id, "id=")
    ensures ConvertGoogleDriveUrl(Thumbnail(id)) == Thumbnail(id)
  {
    ThumbnailSizeRewrite(id, Size);
  }

  /**
   * A thumbnail URL of any other size is not passed through: it is rewritten
   * to the 400 by 400 thumbnail of the same file.
   */
  lemma ThumbnailSizeRewrite(id: string, size: string)
    requires id != "" && '&' !in id && !Includes(id, "id=")
    ensures ConvertGoogleDriveUrl(ThumbnailHead + id + ("&sz=" + size)) == Thumbnail(id)
  {
    ThumbnailPrefixShape();
    QueryLinkRewrite(ThumbnailPrefix, id, "&sz=" + size);
  }

  /**
   * Converting twice is converting once, for every URL whose extracted id is
   * free of "&" (a bare id must also be free of "id="); an id read after
   * "id=" is free of both by construction.
   */
  lemma ConvertIdempotent(url: string)
    requires IsBareId(url) ==> '&' !in url && !Includes(url, "id=")
    requires Includes(url, Host) && !Includes(url, "id=") ==> '&' !in FileId(url)
    ensures ConvertGoogleDriveUrl(ConvertGoogleDriveUrl(url)) == ConvertGoogleDriveUrl(url)
  {
    if url == "" {
    } else if IsBareId(url) {
      ThumbnailIsFixedPoint(url);
    } else if Includes(url, Host) && FileId(url) != "" {
      var id := FileId(url);
      if !Includes(url, "id=") {
        var piece := Split(url, "/file/d/")[1];
        SplitExcludes(url, "/file/d/", "id=");
        SplitExcludes(piece, "/", "id=");
      }
      ThumbnailIsFixedPoint(id);
    }
  }

  /**
   * A Drive link whose "id=" is followed by nothing or straight by the next
   * parameter names an empty id, and is returned unchanged.
   */
  lemma EmptyQueryIdUnchanged(a: string, rest: string)
    requires Includes(a, Host) && !Includes(a, "id=")
    requires rest == "" || rest[0] == '&'
    ensures ConvertGoogleDriveUrl(a + "id=" + rest) == a + "id=" + rest
  {
    assert !IsBareId(a + "id=" + rest) && Includes(a + "id=" + rest, Host) by {
      assert a + "id=" + rest == a + ("id=" + rest);
      DriveHostIsNotBareId(a, "id=" + rest);
    }
    EmptyQueryFileId(a, rest);
  }

  /** The id read out of `a` + "id=" + `rest` is empty when `rest` is empty or starts with "&". */
  lemma EmptyQueryFileId(a: string, rest: string)
    requires !Includes(a, "id=")
    requires rest == "" || rest[0] == '&'
    ensures FileId(a + "id=" + rest) == ""
  {
    assert a + "id=" + "" + rest == a + "id=" + rest;
    QueryFileId(a, "", rest);
  }

  /** The link `https://drive.google.com/uc?id=&x` names an empty id and is returned unchanged. */
  lemma EmptyQueryIdExample()
    ensures ConvertGoogleDriveUrl(Origin + "/uc?id=&x") == Origin + "/uc?id=&x"
  {
    var path, rest := "/uc?", "&x";
    assert Origin + "/uc?id=&x" == Origin + path + "id=" + rest;
    OriginShape();
    IndexOfExtend(Origin, path, Host);
    OriginLacksEquals();
    assert '=' !in path;
    var q := "id=";
    assert q[2] == '=';
    CharAbsent(Origin + path, q, 2);
    EmptyQueryIdUnchanged(Origin + path, rest);
  }

  /**
   * Any "id=" wins over the path: a share link whose query carries a
   * parameter ending in "id" (such as `ouid`) is rewritten to the thumbnail
   * of that parameter's value, not of the file named in its path. The query
   * is a parameter pinned by the precondition: with the literal written into
   * the postconditions the proof runs out of resources on some solver seeds.
   */
  lemma ShareLinkWithOwnerParameter(id: string, query: string, other: string)
    requires '=' !in id
    requires query == "/view?ouid="
    requires other != "" && '=' !in other && '&' !in other
    ensures ConvertGoogleDriveUrl(Origin + "/file/d/" + id + query + other) == Thumbnail(other)
    ensures other != id ==> ConvertGoogleDriveUrl(Origin + "/file/d/" + id + query + other) != Thumbnail(id)
  {
    var a := Origin + "/file/d/" + id + "/view?ou";
    OwnerPrefixShape(id);
    var q := "id=";
    assert !Includes(other, q) by {
      assert q[2] == '=';
      CharAbsent(other, q, 2);
    }
    assert Origin + "/file/d/" + id + query + other == a + q + other + "" by {
      assert query == "/view?ou" + q;
    }
    QueryLinkRewrite(a, other, "");
  }

  /** The part of such a share link before its "id=" names the Drive host and holds no "id=". */
  lemma OwnerPrefixShape(id: string)
    requires '=' !in id
    ensures Includes(Origin + "/file/d/" + id + "/view?ou", Host)
    ensures !Includes(Origin + "/file/d/" + id + "/view?ou", "id=")
  {
    var tail := "/file/d/" + id + "/view?ou";
    assert Origin + "/file/d/" + id + "/view?ou" == Origin + tail;
    OriginShape();
    IndexOfExtend(Origin, tail, Host);
    OwnerPrefixLacksEquals(id);
  }

  /** Nothing in that prefix is an "=", so it holds no "id=". */
  lemma OwnerPrefixLacksEquals(id: string)
    requires '=' !in id
    ensures !Includes(Origin + "/file/d/" + id + "/view?ou", "id=")
  {
    OriginLacksEquals();
    var a := Origin + "/file/d/" + id + "/view?ou";
    assert '=' !in "/file/d/" && '=' !in "/view?ou";
    var q := "id=";
    assert q[2] == '=';
    CharAbsent(a, q, 2);
  }

  /**
   * Every share link `Origin` + "/file/d/" + id + `rest` is rewritten to the
   * thumbnail of `id`, when `rest` is empty or starts a new path segment and
   * neither holds an "=".
   */
  lemma ShareLink(id: string, rest: string)
    requires id != "" && '/' !in id && '=' !in id
    requires rest == "" || rest[0] == '/'
    requires '=' !in rest
    ensures ConvertGoogleDriveUrl(Origin + "/file/d/" + id + rest) == Thumbnail(id)
  {
    OriginShape();
    OriginLacksEquals();
    var url := Origin + "/file/d/" + id + rest;
    var q := "id=";
    assert q[2] == '=';
    CharAbsent(url, q, 2);
    PathLinkRewrite(Origin, id, rest);
  }

  /** The documented share link of file "XYZ123" becomes its thumbnail. */
  lemma ShareLinkExample()
    ensures ConvertGoogleDriveUrl(Origin + "/file/d/XYZ123/view") == Thumbnail("XYZ123")
  {
    var id, rest := "XYZ123", "/view";
    assert Origin + "/file/d/XYZ123/view" == Origin + "/file/d/" + id + rest;
    assert '/' !in id && '=' !in id && '=' !in rest;
    ShareLink(id, rest);
  }

  /** The origin has no "=". */
  lemma OriginLacksEquals()
    ensures '=' !in Origin
  {
    assert '=' !in "https://";
    assert '=' !in Host;
  }

  /** The origin names the host, and a "/file/d/" after it is the first one. */
  lemma OriginShape()
    ensures Includes(Origin, Host)
    ensures IndexOf(Origin + "/file/d/", "/file/d/") == |Origin|
  {
    assert OccursAt(Origin, Host, 8);
    var marker := "/file/d/";
    assert marker[1] == 'f' && marker[0] == '/';
    SecondCharAbsent(Origin, marker);
  }

  /** A 20-character id is one character too short to count as bare, and it is not a Drive link: it passes through. */
  lemma TwentyCharacterIdPassesThrough()
    ensures ConvertGoogleDriveUrl("1A2b3C4d5E6f7G8h9I0j") == "1A2b3C4d5E6f7G8h9I0j"
  {
    var url := "1A2b3C4d5E6f7G8h9I0j";
    assert Host[5] == '.';
    CharAbsent(url, Host, 5);
  }

  /**
   * A 21-character id without "http" or "." is bare and becomes its thumbnail.
   * The id is a parameter pinned by the precondition: with the literal written
   * into the postcondition the solver unfolds the thumbnail over it and runs
   * out of resources.
   */
  lemma TwentyOneCharacterIdRewritten(url: string)
    requires url == "1A2b3C4d5E6f7G8h9I0jK"
    ensures ConvertGoogleDriveUrl(url) == Thumbnail(url)
  {
    var scheme := "http";
    assert scheme[1] == 't';
    CharAbsent(url, scheme, 1);
    FirstCharAbsent(url, ".");
  }

  /** A URL of another host is returned unchanged. */
  lemma ForeignUrlUnchanged()
    ensures ConvertGoogleDriveUrl("https://example.com/pic.png") == "https://example.com/pic.png"
  {
    var url := "https://example.com/pic.png";
    assert OccursAt(url, "http", 0);
    FirstCharAbsent(url, Host);
  }
}
