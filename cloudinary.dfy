/** The Cloudinary delivery-URL normaliser (src/utils/cloudinary.ts). The cloud name,
    read from the build environment in the application, is a parameter. */
module Cloudinary {
  import opened JsBuiltins

  predicate StartsWith(s: string, p: string) {
    |p| <= |s| && s[..|p|] == p
  }

  const HttpsHost: string := "https://res.cloudinary.com/"
  const HttpHost: string := "http://res.cloudinary.com/"
  const UploadPath: string := "image/upload"

  /** `s` without a leading `/`, if it has one (the `\/?` at the end of both patterns). */
  function DropOptionalSlash(s: string): (r: string)
    ensures StartsWith(s, "/") ==> r == s[1..]
    ensures !StartsWith(s, "/") ==> r == s
  {
    if |s| > 0 && s[0] == '/' then s[1..] else s
  }

  /** After the host: a non-empty cloud segment without `/`, then `/image/upload`. Gives
      what follows `upload`, or `None` when the rest does not have that shape. */
  function AfterCloudSegment(rest: string): (r: Option<string>)
  {
    var k := IndexOf(rest, '/');
    if k == 0 || !StartsWith(rest[k..], "/" + UploadPath) then None
    else Some(rest[k + 1 + |UploadPath|..])
  }

  /** What follows `https://res.cloudinary.com/` or `http://res.cloudinary.com/`. */
  function AfterHost(s: string): Option<string> {
    if StartsWith(s, HttpsHost) then Some(s[|HttpsHost|..])
    else if StartsWith(s, HttpHost) then Some(s[|HttpHost|..])
    else None
  }

  /** `.replace(/^https?:\/\/res\.cloudinary\.com\/[^/]+\/image\/upload\/?/, "")`. */
  function StripDeliveryUrl(s: string): (r: string)
    ensures |r| <= |s|
  {
    match AfterHost(s)
    case None => s
    case Some(rest) =>
      match AfterCloudSegment(rest)
      case None => s
      case Some(after) => DropOptionalSlash(after)
  }

  /** `.replace(/^image\/upload\/?/, "")`. */
  function StripUploadPrefix(s: string): (r: string)
    ensures StartsWith(s, UploadPath) ==> r == DropOptionalSlash(s[|UploadPath|..])
    ensures !StartsWith(s, UploadPath) ==> r == s
  {
    if StartsWith(s, UploadPath) then DropOptionalSlash(s[|UploadPath|..]) else s
  }

  /** The delivery prefix for a cloud. */
  function DeliveryBase(cloudName: string): string {
    HttpsHost + cloudName + "/" + UploadPath + "/"
  }

  /** `cloudinaryUrlFromPublicId(publicId)` for the configured `cloudName`: "" when
      either is empty, else the configured cloud's delivery prefix and the id with any
      known prefix removed. */
  function CloudinaryUrlFromPublicId(cloudName: string, publicId: string): (r: string)
    ensures cloudName == "" || publicId == "" ==> r == ""
    ensures cloudName != "" && publicId != "" ==>
      StartsWith(r, DeliveryBase(cloudName)) && |r| <= |DeliveryBase(cloudName)| + |publicId|
    ensures cloudName != "" && publicId != "" ==>
      r == DeliveryBase(cloudName) + StripUploadPrefix(StripDeliveryUrl(publicId))
  {
    if cloudName == "" || publicId == "" then ""
    else
      var id := StripUploadPrefix(StripDeliveryUrl(publicId));
      var r := DeliveryBase(cloudName) + id;
      assert r[..|DeliveryBase(cloudName)|] == DeliveryBase(cloudName);
      r
  }

  lemma AppendedStartsWith(p: string, s: string)
    ensures StartsWith(p + s, p) && (p + s)[|p|..] == s
  {
    assert (p + s)[..|p|] == p;
  }

  /** An id with no host prefix and no upload prefix is used as it is. */
  lemma PlainIdUnchanged(cloudName: string, publicId: string)
    requires cloudName != "" && publicId != ""
    requires !StartsWith(publicId, HttpsHost) && !StartsWith(publicId, HttpHost)
    requires !StartsWith(publicId, UploadPath)
    ensures CloudinaryUrlFromPublicId(cloudName, publicId) == DeliveryBase(cloudName) + publicId
  {
  }

  /** A URL on the Cloudinary host that lacks the `<cloud>/image/upload` shape (a video
      URL, say) matches neither pattern and is kept whole after the base. */
  lemma HostWithoutShapeUnchanged(cloudName: string, host: string, rest: string)
    requires cloudName != ""
    requires host == HttpsHost || host == HttpHost
    requires AfterCloudSegment(rest).None?
    ensures CloudinaryUrlFromPublicId(cloudName, host + rest) == DeliveryBase(cloudName) + (host + rest)
  {
    HostOf(host, rest);
    assert (host + rest)[0] == 'h';
    assert !StartsWith(host + rest, UploadPath);
  }

  /** What the full-URL pattern removes from a delivery URL of any cloud: the host, the
      cloud segment, `/image/upload` and one optional `/`. */
  lemma StripDeliveryOf(host: string, cloud: string, slash: string, rem: string)
    requires host == HttpsHost || host == HttpHost
    requires cloud != "" && forall i | 0 <= i < |cloud| :: cloud[i] != '/'
    requires slash == "" || slash == "/"
    requires slash == "" ==> !StartsWith(rem, "/")
    ensures StripDeliveryUrl(host + cloud + "/" + UploadPath + slash + rem) == rem
  {
    var after := slash + rem;
    var rest := cloud + "/" + UploadPath + after;
    assert host + cloud + "/" + UploadPath + slash + rem == host + rest;
    HostOf(host, rest);
    SegmentOf(cloud, after);
    assert DropOptionalSlash(after) == rem by {
      if slash == "/" {
        AppendedStartsWith("/", rem);
      } else {
        assert after == rem;
      }
    }
  }

  lemma HostOf(host: string, rest: string)
    requires host == HttpsHost || host == HttpHost
    ensures AfterHost(host + rest) == Some(rest)
  {
    AppendedStartsWith(host, rest);
    if host == HttpHost {
      assert (host + rest)[4] == ':';
    }
  }

  lemma SegmentOf(cloud: string, after: string)
    requires cloud != "" && forall i | 0 <= i < |cloud| :: cloud[i] != '/'
    ensures AfterCloudSegment(cloud + "/" + UploadPath + after) == Some(after)
  {
    var tail := "/" + UploadPath + after;
    assert cloud + "/" + UploadPath + after == cloud + tail;
    CloudSegmentIndex(cloud, tail);
    AppendedStartsWith(cloud, tail);
    assert tail == ("/" + UploadPath) + after;
    AppendedStartsWith("/" + UploadPath, after);
  }

  lemma CloudSegmentIndex(cloud: string, tail: string)
    requires forall i | 0 <= i < |cloud| :: cloud[i] != '/'
    requires |tail| > 0 && tail[0] == '/'
    ensures IndexOf(cloud + tail, '/') == |cloud|
  {
    assert (cloud + tail)[|cloud|] == '/';
    assert forall i | 0 <= i < |cloud| :: (cloud + tail)[i] == cloud[i];
  }

  /** A full delivery URL of any cloud, over http or https, is re-pointed at the
      configured cloud and keeps only what follows `image/upload` and its optional `/`. */
  lemma RepointsDeliveryUrl(cloudName: string, host: string, otherCloud: string, slash: string, rem: string)
    requires cloudName != ""
    requires host == HttpsHost || host == HttpHost
    requires otherCloud != "" && forall i | 0 <= i < |otherCloud| :: otherCloud[i] != '/'
    requires slash == "" || slash == "/"
    requires slash == "" ==> !StartsWith(rem, "/")
    requires !StartsWith(rem, UploadPath)
    ensures CloudinaryUrlFromPublicId(cloudName, host + otherCloud + "/" + UploadPath + slash + rem)
         == DeliveryBase(cloudName) + rem
  {
    StripDeliveryOf(host, otherCloud, slash, rem);
  }

  /** A bare `image/upload` prefix, with or without its slash, is removed once. */
  lemma StripsBareUploadPrefix(cloudName: string, slash: string, rem: string)
    requires cloudName != ""
    requires slash == "" || slash == "/"
    requires slash == "" ==> !StartsWith(rem, "/")
    ensures CloudinaryUrlFromPublicId(cloudName, UploadPath + slash + rem) == DeliveryBase(cloudName) + rem
  {
    var s := UploadPath + slash + rem;
    assert s[0] == 'i';
    assert !StartsWith(s, HttpsHost) && !StartsWith(s, HttpHost);
    AppendedStartsWith(UploadPath, slash + rem);
    assert s == UploadPath + (slash + rem);
    if slash == "/" {
      AppendedStartsWith("/", rem);
    }
  }

  /** The bare prefix is removed only once: a doubled one leaves the second in place. */
  lemma StripsBarePrefixOnce(cloudName: string)
    requires cloudName != ""
    ensures CloudinaryUrlFromPublicId(cloudName, "image/upload/image/upload/x")
         == DeliveryBase(cloudName) + "image/upload/x"
  {
    assert "image/upload/image/upload/x" == UploadPath + "/" + "image/upload/x";
    StripsBareUploadPrefix(cloudName, "/", "image/upload/x");
  }

  /** Normalising an already normalised URL changes nothing when the cloud name is a
      single path segment and the id does not itself start with `image/upload`. */
  lemma NormalisedIsStable(cloudName: string, publicId: string)
    requires cloudName != "" && forall i | 0 <= i < |cloudName| :: cloudName[i] != '/'
    requires publicId != ""
    requires var id := StripUploadPrefix(StripDeliveryUrl(publicId)); !StartsWith(id, UploadPath)
    ensures var r := CloudinaryUrlFromPublicId(cloudName, publicId);
      CloudinaryUrlFromPublicId(cloudName, r) == r
  {
    var id := StripUploadPrefix(StripDeliveryUrl(publicId));
    RepointsDeliveryUrl(cloudName, HttpsHost, cloudName, "/", id);
    assert DeliveryBase(cloudName) + id == HttpsHost + cloudName + "/" + UploadPath + "/" + id;
  }
}
