/** A client for the Bunny Stream video API: immutable configuration with defaults,
    authenticated GET requests to the library's video resources, and thumbnail URLs
    signed with a time-limited token.

    The token is a 32-bit rolling checksum (multiplier 31, as in Java's String
    hashCode), not a cryptographic hash: anyone who knows the signing key scheme
    and can invert or collide 32 bits can forge it. It is modelled as it is. */
module BunnyStream {

  import opened Wrappers
  import opened JsRuntime

  // ---------------------------------------------------------------------------
  // Configuration

  const DefaultBaseUrl: string := "https://video.bunnycdn.com"

  /** Seconds a signed URL stays valid. */
  const TokenLifetime: nat := 3600

  /** What the caller passes to the constructor; the last three may be left out. */
  datatype BunnyStreamConfig = BunnyStreamConfig(
    apiKey: string,
    libraryId: string,
    baseUrl: Option<string>,
    cdnHostname: Option<string>,
    tokenAuthKey: Option<string>)

  /** True of an optional string that JavaScript's `||` keeps: present and non-empty. */
  predicate Supplied(o: Option<string>) {
    o.Some? && o.value != ""
  }

  /** `o || fallback` for a string that may be undefined. */
  function Or(o: Option<string>, fallback: string): string {
    if Supplied(o) then o.value else fallback
  }

  /** The CDN host of a library when none is configured. */
  function DefaultCdnHostname(libraryId: string): string {
    "vz-" + libraryId + ".b-cdn.net"
  }

  // ---------------------------------------------------------------------------
  // The signing scheme

  /** The path that is signed: the given one if it starts with a slash, otherwise
      the given one behind a single slash. */
  function NormalizePath(path: string): (p: string)
    ensures |p| > 0 && p[0] == '/'
    ensures p == path <==> |path| > 0 && path[0] == '/'
    ensures p != path ==> p == "/" + path
  {
    if |path| > 0 && path[0] == '/' then path else "/" + path
  }

  /** The Unix time, in seconds, at which a token made at nowSeconds runs out. */
  function Expiration(nowSeconds: nat): (e: nat)
    ensures e > nowSeconds
  {
    nowSeconds + TokenLifetime
  }

  /** The string whose code units are hashed: key, normalised path, decimal expiration. */
  function SigningInput(key: string, path: string, nowSeconds: nat): (s: string)
    ensures var p, d := NormalizePath(path), RadixString(Expiration(nowSeconds), 10);
      && |s| == |key| + |p| + |d|
      && s[..|key|] == key
      && s[|key|] == '/'
      && s[|key|..|key| + |p|] == p
      && s[|s| - |d|..] == d
  {
    key + NormalizePath(path) + RadixString(Expiration(nowSeconds), 10)
  }

  /** One step of the rolling hash: multiply by 31, add the code unit, wrap to int32. */
  function Step(acc: int, unit: int): (r: int)
    ensures IsInt32(r)
  {
    ToInt32(31 * acc + unit)
  }

  /** Left fold of Step over the code units, starting from acc. */
  function Fold(acc: int, units: seq<int>): (r: int)
    ensures IsInt32(acc) ==> IsInt32(r)
    ensures units != [] ==> IsInt32(r)
    decreases |units|
  {
    if units == [] then acc else Fold(Step(acc, units[0]), units[1..])
  }

  /** The accumulator after all code units, starting from 0. */
  function Hash(units: seq<int>): (h: int)
    ensures IsInt32(h)
  {
    Fold(0, units)
  }

  /** Folding one more code unit is one more Step on the fold so far. */
  lemma {:induction false} FoldSnoc(acc: int, units: seq<int>, unit: int)
    ensures Fold(acc, units + [unit]) == Step(Fold(acc, units), unit)
    decreases |units|
  {
    if units == [] {
      assert units + [unit] == [unit];
    } else {
      assert (units + [unit])[1..] == units[1..] + [unit];
      FoldSnoc(Step(acc, units[0]), units[1..], unit);
    }
  }

  /** The fold over a concatenation continues the fold over its first part. */
  lemma {:induction false} FoldConcat(acc: int, u: seq<int>, v: seq<int>)
    ensures Fold(acc, u + v) == Fold(Fold(acc, u), v)
    decreases |u|
  {
    if u == [] {
      assert u + v == v;
    } else {
      assert (u + v)[1..] == u[1..] + v;
      FoldConcat(Step(acc, u[0]), u[1..], v);
    }
  }

  /** The hash runs over the key, then the normalised path, then the decimal
      expiration, without restarting between them. */
  lemma HashOfSigningInput(key: string, path: string, nowSeconds: nat)
    ensures Hash(CodeUnits(SigningInput(key, path, nowSeconds)))
         == Fold(Fold(Hash(CodeUnits(key)), CodeUnits(NormalizePath(path))),
                 CodeUnits(RadixString(Expiration(nowSeconds), 10)))
  {
    var k, p, d := key, NormalizePath(path), RadixString(Expiration(nowSeconds), 10);
    CodeUnitsConcat(k + p, d);
    CodeUnitsConcat(k, p);
    FoldConcat(0, CodeUnits(k) + CodeUnits(p), CodeUnits(d));
    FoldConcat(0, CodeUnits(k), CodeUnits(p));
  }

  /** The loop body as the source writes it, `((h << 5) - h) + c` followed by `h & h`
      (which is ToInt32(h)), is one Step when h is already a 32-bit value. The
      subtraction and addition happen on doubles, exactly, since every operand is
      below 2^33 in magnitude. */
  lemma StepAsWritten(h: int, unit: int)
    requires IsInt32(h)
    ensures ToInt32(ShiftLeft5(h) - h + unit) == Step(h, unit)
  {
  }

  function Abs(x: int): nat {
    if x < 0 then -x else x
  }

  /** The signature part of a token: |hash| of the signing input. */
  function Signature(key: string, path: string, nowSeconds: nat): (s: nat)
    ensures s <= TwoTo31
  {
    Abs(Hash(CodeUnits(SigningInput(key, path, nowSeconds))))
  }

  /** The token: lower-case hex of the signature, then the decimal expiration. */
  function SecurityToken(key: string, path: string, nowSeconds: nat): (t: string)
    ensures var d := RadixString(Expiration(nowSeconds), 10);
      && |t| > |d|
      && t[|t| - |d|..] == d
      && AllDigitsIn(t[..|t| - |d|], 16)
  {
    RadixString(Signature(key, path, nowSeconds), 16) + RadixString(Expiration(nowSeconds), 10)
  }

  /** A token is a non-empty run of lower-case hex digits with no sign, which reads
      back as the signature, followed by the decimal expiration. */
  lemma TokenShape(key: string, path: string, nowSeconds: nat)
    ensures var t, d := SecurityToken(key, path, nowSeconds), RadixString(Expiration(nowSeconds), 10);
      && |t| > |d|
      && t[|t| - |d|..] == d
      && AllDigitsIn(t[..|t| - |d|], 16)
      && ParseRadix(t[..|t| - |d|], 16) == Some(Signature(key, path, nowSeconds))
      && ParseRadix(t[|t| - |d|..], 10) == Some(nowSeconds + TokenLifetime)
  {
    var h, d := RadixString(Signature(key, path, nowSeconds), 16), RadixString(Expiration(nowSeconds), 10);
    var t := h + d;
    assert t[|t| - |d|..] == d;
    assert t[..|t| - |d|] == h;
    RadixStringRoundTrip(Signature(key, path, nowSeconds), 16);
    RadixStringRoundTrip(Expiration(nowSeconds), 10);
  }

  /** Tokens made at two different times differ, as long as their expirations have
      the same number of decimal digits. (With different digit counts the hex part
      of one can end in digits that make up the other's longer suffix, so equality
      is not ruled out by the token's shape alone.) */
  lemma TokensDiffer(key: string, path: string, now1: nat, now2: nat)
    requires now1 != now2
    requires |RadixString(Expiration(now1), 10)| == |RadixString(Expiration(now2), 10)|
    ensures SecurityToken(key, path, now1) != SecurityToken(key, path, now2)
  {
    var t1, t2 := SecurityToken(key, path, now1), SecurityToken(key, path, now2);
    var d1, d2 := RadixString(Expiration(now1), 10), RadixString(Expiration(now2), 10);
    TokenShape(key, path, now1);
    TokenShape(key, path, now2);
    RadixStringRoundTrip(Expiration(now1), 10);
    RadixStringRoundTrip(Expiration(now2), 10);
    assert d1 != d2;
    assert t1[|t1| - |d1|..] == d1 && t2[|t2| - |d2|..] == d2;
  }

  // ---------------------------------------------------------------------------
  // Thumbnail URLs

  /** The CDN path of a video's thumbnail; it already starts with a slash, so
      signing leaves it as it is. */
  function ThumbnailPath(videoId: string): (p: string)
    ensures |p| == |videoId| + 15 && p[0] == '/'
    ensures p[1..|videoId| + 1] == videoId && p[|videoId| + 1..] == "/thumbnail.jpg"
    ensures NormalizePath(p) == p
  {
    "/" + videoId + "/thumbnail.jpg"
  }

  /** A concatenation splits back into its two parts. */
  lemma SplitConcat(a: string, b: string)
    ensures (a + b)[..|a|] == a && (a + b)[|a|..] == b
  {
  }

  /** The `&time=` parameter: present only for a time that is given and non-zero. */
  function TimeParam(time: Option<int>): (r: string)
    ensures r != "" <==> time.Some? && time.value != 0
    ensures r != "" ==> r == "&time=" + IntToString(time.value)
  {
    if time.Some? && time.value != 0 then "&time=" + IntToString(time.value) else ""
  }

  // ---------------------------------------------------------------------------
  // REST endpoints

  /** The video resources the client reads. */
  datatype Resource = Metadata | Heatmap | Statistics | Play

  function ResourceSuffix(resource: Resource): (s: string)
    ensures s == "" <==> resource == Metadata
    ensures s != "" ==> s[0] == '/' && '/' !in s[1..]
  {
    match resource
    case Metadata => ""
    case Heatmap => "/heatmap"
    case Statistics => "/statistics"
    case Play => "/play"
  }

  /** The API path of one resource of one video in a library. */
  function VideoEndpoint(libraryId: string, videoId: string, resource: Resource): (e: string)
    ensures var p := "/library/" + libraryId + "/videos/" + videoId;
      && |e| >= |p|
      && e[..|p|] == p
      && e[|p|..] == ResourceSuffix(resource)
  {
    var p := "/library/" + libraryId + "/videos/" + videoId;
    SplitConcat(p, ResourceSuffix(resource));
    p + ResourceSuffix(resource)
  }

  /** For video ids without a slash, the endpoint determines the video and the
      resource. */
  lemma EndpointInjective(libraryId: string, v1: string, r1: Resource, v2: string, r2: Resource)
    requires '/' !in v1 && '/' !in v2
    requires VideoEndpoint(libraryId, v1, r1) == VideoEndpoint(libraryId, v2, r2)
    ensures v1 == v2 && r1 == r2
  {
    var prefix := "/library/" + libraryId + "/videos/";
    var s1, s2 := ResourceSuffix(r1), ResourceSuffix(r2);
    CancelPrefix(prefix, v1, s1, v2, s2);
    SameLengthIds(v1, s1, v2, s2);
    SameLengthIds(v2, s2, v1, s1);
    SplitConcat(v1, s1);
    SplitConcat(v2, s2);
  }

  /** Equal strings with the same prefix have equal remainders. */
  lemma CancelPrefix(prefix: string, v1: string, s1: string, v2: string, s2: string)
    requires prefix + v1 + s1 == prefix + v2 + s2
    ensures v1 + s1 == v2 + s2
  {
    assert prefix + v1 + s1 == prefix + (v1 + s1);
    assert prefix + v2 + s2 == prefix + (v2 + s2);
    SplitConcat(prefix, v1 + s1);
    SplitConcat(prefix, v2 + s2);
  }

  /** If v1 + s1 == v2 + s2 where v2 has no slash and s1 is empty or starts with a
      slash, v1 is not shorter than v2. */
  lemma SameLengthIds(v1: string, s1: string, v2: string, s2: string)
    requires '/' !in v2
    requires s1 == [] || s1[0] == '/'
    requires v1 + s1 == v2 + s2
    ensures |v1| >= |v2|
  {
    var w := v1 + s1;
    if s1 != [] {
      assert w[|v1|] == '/';
      assert forall i :: 0 <= i < |v2| ==> w[i] == v2[i] && v2[i] in v2;
    }
  }

  /** A video id that contains a slash can name another video's sub-resource:
      ids are put into the path without escaping. */
  lemma SlashInVideoIdAliases(libraryId: string)
    ensures VideoEndpoint(libraryId, "abc/play", Metadata) == VideoEndpoint(libraryId, "abc", Play)
  {
  }

  // ---------------------------------------------------------------------------
  // Requests and responses

  /** The parts of fetch's options that the client passes through: a method, extra
      headers (a plain object) and a body. */
  datatype RequestOptions = RequestOptions(httpMethod: Option<string>, headers: map<string, string>, body: Option<string>)

  const NoOptions: RequestOptions := RequestOptions(None, map[], None)

  /** The request handed to fetch. */
  datatype Request = Request(url: string, httpMethod: string, headers: map<string, string>, body: Option<string>)

  /** What fetch reports back: the ok flag, the status code and the body text. */
  datatype Response = Response(ok: bool, status: nat, bodyText: string)

  /** A request together with what came of it. */
  datatype Exchange<T> = Exchange(request: Request, result: Result<T, string>)

  /** The playback descriptor of a video; every delivery URL may be missing. */
  datatype VideoPlayData = VideoPlayData(
    videoPlaylistUrl: Option<string>,
    thumbnailUrl: Option<string>,
    previewUrl: Option<string>,
    fallbackUrl: Option<string>,
    captionsPath: Option<string>,
    seekPath: Option<string>)

  const HttpErrorPrefix: string := "HTTP error! status: "

  /** The message of the error raised for a response that is not ok. */
  function HttpErrorMessage(status: nat, bodyText: string): (m: string)
    ensures |m| >= |HttpErrorPrefix| + |bodyText|
    ensures m[..|HttpErrorPrefix|] == HttpErrorPrefix
    ensures m[|m| - |bodyText|..] == bodyText
  {
    HttpErrorPrefix + RadixString(status, 10) + " - " + bodyText
  }

  /** The length of the run of decimal digits at the start of s. */
  function LeadingDigits(s: string): (k: nat)
    ensures k <= |s|
    ensures AllDigitsIn(s[..k], 10)
    ensures k < |s| ==> !IsDigitIn(s[k], 10)
  {
    if s == [] || !IsDigitIn(s[0], 10) then 0
    else
      var k := 1 + LeadingDigits(s[1..]);
      assert s[..k] == [s[0]] + s[1..][..k - 1];
      k
  }

  /** Recovers the status code and the body text from an HTTP error message; the
      status must be written without leading zeros, as toString writes it. */
  function ParseHttpErrorMessage(message: string): Option<(nat, string)> {
    var n := |HttpErrorPrefix|;
    if |message| >= n && message[..n] == HttpErrorPrefix then
      var rest := message[n..];
      var k := LeadingDigits(rest);
      if 0 < k && (rest[0] == '0' ==> k == 1) && k + 3 <= |rest| && rest[k..k + 3] == " - " then
        Some((DigitsValue(rest[..k], 10), rest[k + 3..]))
      else None
    else None
  }

  lemma {:induction false} LeadingDigitsOf(digits: string, tail: string)
    requires AllDigitsIn(digits, 10)
    requires tail == [] || !IsDigitIn(tail[0], 10)
    ensures LeadingDigits(digits + tail) == |digits|
    decreases |digits|
  {
    if digits == [] {
      assert digits + tail == tail;
    } else {
      assert (digits + tail)[1..] == digits[1..] + tail;
      LeadingDigitsOf(digits[1..], tail);
    }
  }

  /** The error message carries the status code and the whole body text: both can
      be read back from it. */
  lemma HttpErrorMessageRoundTrip(status: nat, bodyText: string)
    ensures ParseHttpErrorMessage(HttpErrorMessage(status, bodyText)) == Some((status, bodyText))
  {
    var d := RadixString(status, 10);
    var m := HttpErrorMessage(status, bodyText);
    var n := |HttpErrorPrefix|;
    assert m == HttpErrorPrefix + (d + " - " + bodyText);
    assert m[..n] == HttpErrorPrefix;
    var rest := m[n..];
    assert rest == d + (" - " + bodyText);
    LeadingDigitsOf(d, " - " + bodyText);
    assert rest[..|d|] == d;
    assert rest[|d|..|d| + 3] == " - ";
    assert rest[|d| + 3..] == bodyText;
    RadixStringRoundTrip(status, 10);
  }

  /** What fetchWithAuth makes of fetch's response: the body text of an ok response
      (for the JSON decoder), otherwise the HTTP error. */
  function CheckResponse(response: Response): (r: Result<string, string>)
    ensures r.Err? <==> !response.ok
    ensures r.Ok? ==> r.value == response.bodyText
    ensures r.Err? ==> ParseHttpErrorMessage(r.error) == Some((response.status, response.bodyText))
    ensures r.Err? ==> r.error == HttpErrorMessage(response.status, response.bodyText)
  {
    if !response.ok then
      HttpErrorMessageRoundTrip(response.status, response.bodyText);
      Err(HttpErrorMessage(response.status, response.bodyText))
    else Ok(response.bodyText)
  }

  // ---------------------------------------------------------------------------
  // The client

  class BunnyStreamClient {
    const apiKey: string
    const libraryId: string
    const baseUrl: string
    const cdnHostname: string
    const tokenAuthKey: string

    /** Takes the configuration; a base URL, CDN host or signing key that is missing
        or empty is replaced by its default. */
    constructor (config: BunnyStreamConfig)
      ensures apiKey == config.apiKey && libraryId == config.libraryId
      ensures baseUrl == if Supplied(config.baseUrl) then config.baseUrl.value else "https://video.bunnycdn.com"
      ensures cdnHostname == if Supplied(config.cdnHostname) then config.cdnHostname.value
                             else "vz-" + config.libraryId + ".b-cdn.net"
      ensures tokenAuthKey == if Supplied(config.tokenAuthKey) then config.tokenAuthKey.value else config.apiKey
    {
      apiKey := config.apiKey;
      libraryId := config.libraryId;
      baseUrl := Or(config.baseUrl, DefaultBaseUrl);
      cdnHostname := Or(config.cdnHostname, DefaultCdnHostname(config.libraryId));
      tokenAuthKey := Or(config.tokenAuthKey, config.apiKey);
    }

    /** The headers every request carries unless the caller overrides them. */
    function BaseHeaders(): (h: map<string, string>)
      ensures h.Keys == {"Accept", "AccessKey"}
      ensures h["Accept"] == "application/json" && h["AccessKey"] == apiKey
    {
      map["Accept" := "application/json", "AccessKey" := apiKey]
    }

    /** Sends `baseUrl + endpoint` with GET unless the options name a method, the
        base headers under the caller's, and the options' body; then checks the
        response. */
    function FetchWithAuth(endpoint: string, options: RequestOptions, response: Response): (x: Exchange<string>)
      ensures x.request.url == baseUrl + endpoint
      ensures x.request.httpMethod == if options.httpMethod.Some? then options.httpMethod.value else "GET"
      ensures x.request.headers.Keys == options.headers.Keys + {"Accept", "AccessKey"}
      ensures forall k :: k in options.headers ==> x.request.headers[k] == options.headers[k]
      ensures "Accept" !in options.headers ==> x.request.headers["Accept"] == "application/json"
      ensures "AccessKey" !in options.headers ==> x.request.headers["AccessKey"] == apiKey
      ensures x.request.body == options.body
      ensures x.result == CheckResponse(response)
    {
      var httpMethod := if options.httpMethod.Some? then options.httpMethod.value else "GET";
      Exchange(Request(baseUrl + endpoint, httpMethod, BaseHeaders() + options.headers, options.body),
               CheckResponse(response))
    }

    /** A GET of url with exactly the base headers and no body. */
    function PlainGet(url: string): Request {
      Request(url, "GET", BaseHeaders(), None)
    }

    /** Reads a video's metadata. */
    function GetVideo(videoId: string, response: Response): (x: Exchange<string>)
      ensures x.request == PlainGet(baseUrl + "/library/" + libraryId + "/videos/" + videoId)
      ensures x.result == CheckResponse(response)
    {
      FetchWithAuth(VideoEndpoint(libraryId, videoId, Metadata), NoOptions, response)
    }

    /** Reads a video's heatmap. */
    function GetVideoHeatmap(videoId: string, response: Response): (x: Exchange<string>)
      ensures x.request == PlainGet(baseUrl + "/library/" + libraryId + "/videos/" + videoId + "/heatmap")
      ensures x.result == CheckResponse(response)
    {
      FetchWithAuth(VideoEndpoint(libraryId, videoId, Heatmap), NoOptions, response)
    }

    /** Reads a video's statistics. */
    function GetVideoStatistics(videoId: string, response: Response): (x: Exchange<string>)
      ensures x.request == PlainGet(baseUrl + "/library/" + libraryId + "/videos/" + videoId + "/statistics")
      ensures x.result == CheckResponse(response)
    {
      FetchWithAuth(VideoEndpoint(libraryId, videoId, Statistics), NoOptions, response)
    }

    /** Reads a video's play data. */
    function GetPlayUrl(videoId: string, response: Response): (x: Exchange<string>)
      ensures x.request == PlainGet(baseUrl + "/library/" + libraryId + "/videos/" + videoId + "/play")
      ensures x.result == CheckResponse(response)
    {
      FetchWithAuth(VideoEndpoint(libraryId, videoId, Play), NoOptions, response)
    }

    /** The playlist URL from a video's play data; playData is what the JSON decoder
        makes of an ok response's body. A missing field gives None, not an error. */
    function GetHlsStreamUrl(videoId: string, response: Response, playData: VideoPlayData): (x: Exchange<Option<string>>)
      ensures x.request == GetPlayUrl(videoId, response).request
      ensures x.result.Err? <==> !response.ok
      ensures x.result.Err? ==> x.result.error == HttpErrorMessage(response.status, response.bodyText)
      ensures x.result.Ok? ==> x.result.value == playData.videoPlaylistUrl
    {
      var play := GetPlayUrl(videoId, response);
      match play.result
      case Ok(_) => Exchange(play.request, Ok(playData.videoPlaylistUrl))
      case Err(e) => Exchange(play.request, Err(e))
    }

    /** Signs path with the client's key for one hour from nowSeconds, hashing the
        signing input's code units one at a time. */
    method GenerateSecurityToken(path: string, nowSeconds: nat) returns (token: string)
      ensures token == SecurityToken(tokenAuthKey, path, nowSeconds)
    {
      var expiration := nowSeconds + TokenLifetime;
      var pathToSign := if |path| > 0 && path[0] == '/' then path else "/" + path;
      var signaturePath := tokenAuthKey + pathToSign + RadixString(expiration, 10);
      var units := CodeUnits(signaturePath);
      var hash := 0;
      for i := 0 to |units|
        invariant IsInt32(hash)
        invariant hash == Fold(0, units[..i])
      {
        var unit := units[i];
        StepAsWritten(hash, unit);
        FoldSnoc(0, units[..i], unit);
        assert units[..i + 1] == units[..i] + [unit];
        hash := ToInt32(ShiftLeft5(hash) - hash + unit);
      }
      assert units[..|units|] == units;
      token := RadixString(Abs(hash), 16) + RadixString(expiration, 10);
    }

    /** The signed thumbnail URL of a video: the CDN host, the thumbnail path and
        the token, then `&time=` with the time if one is given and non-zero. */
    function GetThumbnailUrl(videoId: string, time: Option<int>, nowSeconds: nat): (url: string)
      ensures var signed := "https://" + cdnHostname + ThumbnailPath(videoId) + "?token="
                            + SecurityToken(tokenAuthKey, ThumbnailPath(videoId), nowSeconds);
        && |signed| <= |url|
        && url[..|signed|] == signed
        && (|url| > |signed| <==> time.Some? && time.value != 0)
        && (|url| > |signed| ==> url[|signed|..] == "&time=" + IntToString(time.value))
    {
      var token := SecurityToken(tokenAuthKey, ThumbnailPath(videoId), nowSeconds);
      var signed := "https://" + cdnHostname + ThumbnailPath(videoId) + "?token=" + token;
      SplitConcat(signed, TimeParam(time));
      signed + TimeParam(time)
    }
  }

  /** Thumbnail URLs made at two different times differ when their expirations
      have the same number of decimal digits (for instance one hour apart, between
      the years 2001 and 2286). */
  lemma ThumbnailUrlsDiffer(client: BunnyStreamClient, videoId: string, time: Option<int>, now1: nat, now2: nat)
    requires now1 != now2
    requires |RadixString(Expiration(now1), 10)| == |RadixString(Expiration(now2), 10)|
    ensures client.GetThumbnailUrl(videoId, time, now1) != client.GetThumbnailUrl(videoId, time, now2)
  {
    var head := "https://" + client.cdnHostname + ThumbnailPath(videoId) + "?token=";
    var path := ThumbnailPath(videoId);
    TokensDiffer(client.tokenAuthKey, path, now1, now2);
    MiddleDiffers(head, SecurityToken(client.tokenAuthKey, path, now1),
                  SecurityToken(client.tokenAuthKey, path, now2), TimeParam(time));
  }

  /** Strings that differ only in their middle parts differ. */
  lemma MiddleDiffers(head: string, a: string, b: string, tail: string)
    requires a != b
    ensures head + a + tail != head + b + tail
  {
    assert (head + a + tail)[|head|..|head| + |a|] == a;
    assert (head + b + tail)[|head|..|head| + |b|] == b;
  }
}
