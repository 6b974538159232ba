# Bunny Stream client, modelled in Dafny

This project models `BunnyStreamClient`, the REST and URL-signing client of the
QuarkTV player package for the Bunny Stream video service. The client holds an
immutable configuration: an API key, a library id, and an API base URL, CDN host
and URL-signing key that all have defaults. It sends authenticated GET requests
for a video's metadata, heatmap, statistics and play data. It also builds thumbnail
URLs signed with a one-hour token.

Files:

- `wrappers.dfy` (module `Wrappers`): `Option` (JavaScript `undefined`) and `Result`.
- `js_runtime.dfy` (module `JsRuntime`): the JavaScript semantics that the client
  relies on. These are ToInt32 (used by `<<` and `&`), `Number.prototype.toString(radix)`
  for non-negative integers, integers in template literals, and the UTF-16 code units
  that `charCodeAt` reads.
- `bunny_stream_client.dfy` (module `BunnyStream`): the configuration, the signing
  scheme as specification functions, the endpoint layout, request and response
  handling, and the class `BunnyStreamClient`. The class's fields are `const`,
  because the source's fields are `readonly` and are assigned once in the constructor.

How the model is built:

- `generateSecurityToken` is a method with a `for` loop. Its loop body is the
  source's own update, `ToInt32(ShiftLeft5(h) - h + c)`. The method is proved equal
  to `SecurityToken`, which is a left fold of `ToInt32(31 * acc + c)` over the code
  units of `key + normalisedPath + decimal(expiration)`. It is followed by the
  lower-case hex of `|hash|` and the decimal expiration.
- The clock is a parameter, `nowSeconds`: whole Unix seconds, which is the value
  `Math.floor(Date.now() / 1000)` produces.
- fetch's response is an input record with `ok`, `status` and `bodyText`.
  `FetchWithAuth` returns the request it would send, together with either the body
  text (which goes to the JSON decoder) or the error message.
- `getHLSStreamUrl` takes the decoded play data as a parameter. A missing
  `videoPlaylistUrl` field gives `None`. It is not an error.

Points where the code does something other than what it seems to say:

- The comment at `src/BunnyStreamClient.ts:90` calls the hash SHA256. The code
  computes a 31-multiplier rolling checksum on signed 32-bit values, and that is
  what is modelled.
- The defaults are applied with `||`, so an empty string also gets the default,
  not only a missing value (`Supplied`).
- A failed request throws a plain `Error` whose message is
  `HTTP error! status: <status> - <body>`. `HttpErrorMessageRoundTrip` shows that
  both values can be recovered from that message.

## Model

| member | source | states |
|---|---|---|
| `BunnyStream.BunnyStreamClient.constructor` | src/BunnyStreamClient.ts:54-60 | apiKey and libraryId are kept. A base URL, CDN host or signing key that is missing or empty becomes `https://video.bunnycdn.com`, `vz-<libraryId>.b-cdn.net` or the API key. A non-empty supplied value is kept unchanged. |
| `BunnyStream.BunnyStreamClient.FetchWithAuth` | src/BunnyStreamClient.ts:62-83 | The URL is `baseUrl + endpoint`. The method is GET unless the options name one. The headers are exactly the caller's keys plus `Accept` and `AccessKey`. A caller's value wins, and otherwise `application/json` and the API key are used. The body is passed through. The result is `CheckResponse` of the response. |
| `BunnyStream.CheckResponse` | src/BunnyStreamClient.ts:74-82 | A response is an error exactly when it is not ok. An ok response yields its body text. The error message is exactly `HTTP error! status: <status> - <body>`, and it reads back as the response's status and its whole body text. |
| `BunnyStream.HttpErrorMessage` | src/BunnyStreamClient.ts:77 | The message starts with `HTTP error! status: ` and ends with the whole body text. |
| `BunnyStream.HttpErrorMessageRoundTrip` | src/BunnyStreamClient.ts:77 | Parsing `HTTP error! status: <status> - <body>` gives back the status and the body, for every status and every body. |
| `BunnyStream.BunnyStreamClient.GetVideo` | src/BunnyStreamClient.ts:101-103 | Sends one plain GET to `baseUrl/library/<libraryId>/videos/<videoId>` with only the two base headers. The response is checked as in fetchWithAuth. |
| `BunnyStream.BunnyStreamClient.GetVideoHeatmap` | src/BunnyStreamClient.ts:105-107 | The same GET, to that path with `/heatmap` appended. |
| `BunnyStream.BunnyStreamClient.GetVideoStatistics` | src/BunnyStreamClient.ts:109-111 | The same GET, to that path with `/statistics` appended. |
| `BunnyStream.BunnyStreamClient.GetPlayUrl` | src/BunnyStreamClient.ts:113-115 | The same GET, to that path with `/play` appended. |
| `BunnyStream.BunnyStreamClient.GetHlsStreamUrl` | src/BunnyStreamClient.ts:117-122 | Sends getPlayUrl's request. It fails exactly when that response is not ok, with the same message. Otherwise it returns the play data's `videoPlaylistUrl`, which may be missing. |
| `BunnyStream.BunnyStreamClient.BaseHeaders` | src/BunnyStreamClient.ts:67-70 | The base headers are exactly `Accept: application/json` and `AccessKey: <apiKey>`. |
| `BunnyStream.ResourceSuffix` | src/BunnyStreamClient.ts:102-114 | The metadata resource has no suffix. Every other resource's suffix is one path segment: a `/` followed by no further `/`. |
| `BunnyStream.VideoEndpoint` | src/BunnyStreamClient.ts:102-114 | The endpoint is `/library/<libraryId>/videos/<videoId>` followed by the resource's suffix. |
| `BunnyStream.EndpointInjective` | src/BunnyStreamClient.ts:101-115 | For video ids without a slash, two endpoints in a library are equal only if they have the same video and the same resource. |
| `BunnyStream.SlashInVideoIdAliases` | src/BunnyStreamClient.ts:102-114 | Video ids are not escaped. The metadata endpoint of `abc/play` is the play endpoint of `abc`. |
| `BunnyStream.NormalizePath` | src/BunnyStreamClient.ts:87 | The signed path starts with `/`. It equals the given path exactly when that path already starts with `/`. Otherwise it is the path with one `/` in front. |
| `BunnyStream.Expiration` | src/BunnyStreamClient.ts:86 | The expiration lies after the signing time. `TokenShape` pins it to `nowSeconds + 3600`. |
| `BunnyStream.SigningInput` | src/BunnyStreamClient.ts:86-88 | The signing input is the key, then the normalised path (which starts with `/`), then the decimal expiration, with nothing in between. |
| `BunnyStream.Step` | src/BunnyStreamClient.ts:94-95 | Each step of the hash yields a signed 32-bit value. |
| `BunnyStream.Fold` | src/BunnyStreamClient.ts:91-96 | The accumulator stays a signed 32-bit value after every code unit. |
| `BunnyStream.Hash` | src/BunnyStreamClient.ts:91-96 | The hash of any input is a signed 32-bit value. |
| `BunnyStream.FoldSnoc` | src/BunnyStreamClient.ts:92-96 | Hashing one more code unit is one more step on the hash so far. This is the loop's inductive step. |
| `BunnyStream.FoldConcat` | src/BunnyStreamClient.ts:92-96 | The fold over a concatenation continues the fold over its first part. |
| `BunnyStream.HashOfSigningInput` | src/BunnyStreamClient.ts:88-96 | The hash runs over the key, then the normalised path, then the decimal expiration, without restarting. |
| `BunnyStream.StepAsWritten` | src/BunnyStreamClient.ts:94-95 | For a 32-bit accumulator h, the code's `((h << 5) - h) + c` followed by `h & h` equals `ToInt32(31*h + c)`. |
| `BunnyStream.Signature` | src/BunnyStreamClient.ts:98 | The signature `Math.abs(hash)` is at most 2^31. |
| `BunnyStream.BunnyStreamClient.GenerateSecurityToken` | src/BunnyStreamClient.ts:85-99 | The loop computes exactly `SecurityToken(tokenAuthKey, path, nowSeconds)`: the fold of the 31-multiplier int32 hash over the signing input's code units, then hex of its absolute value, then the decimal expiration. |
| `BunnyStream.SecurityToken` | src/BunnyStreamClient.ts:85-98 | The token is a run of lower-case hex digits followed by the decimal expiration, and it is longer than that expiration. |
| `BunnyStream.TokenShape` | src/BunnyStreamClient.ts:86-98 | A token is a non-empty run of lower-case hex digits with no sign, which reads back as the signature. It is followed by a suffix that is the decimal expiration and reads back as `nowSeconds + 3600`. |
| `BunnyStream.TokensDiffer` | src/BunnyStreamClient.ts:86-98 | Tokens made at two different times differ when their expirations have the same number of decimal digits. |
| `BunnyStream.ThumbnailPath` | src/BunnyStreamClient.ts:125-126 | The thumbnail path is `/`, the video id, then `/thumbnail.jpg`. It starts with `/`, so normalisation leaves it unchanged. |
| `BunnyStream.TimeParam` | src/BunnyStreamClient.ts:127 | The time parameter is non-empty exactly when the time is given and non-zero, and then it is `&time=<time>`. |
| `BunnyStream.BunnyStreamClient.GetThumbnailUrl` | src/BunnyStreamClient.ts:124-129 | The URL starts with `https://<cdnHostname>/<videoId>/thumbnail.jpg?token=<token>`, where the token signs `/<videoId>/thumbnail.jpg`. Something follows only when the time is given and non-zero, and then it is exactly `&time=<time>`. |
| `BunnyStream.ThumbnailUrlsDiffer` | src/BunnyStreamClient.ts:124-129 | Thumbnail URLs made at different times differ when their expirations have equally many digits, for example one hour apart between the years 2001 and 2286. |
| `JsRuntime.ToInt32` | src/BunnyStreamClient.ts:94-95 | The result is a signed 32-bit value congruent to the argument modulo 2^32. |
| `JsRuntime.ToInt32Congruent` | src/BunnyStreamClient.ts:94-95 | ToInt32 depends only on the residue modulo 2^32. |
| `JsRuntime.ShiftLeft5` | src/BunnyStreamClient.ts:94 | `x << 5` is a signed 32-bit value. |
| `JsRuntime.RadixString` | src/BunnyStreamClient.ts:98 | `n.toString(radix)` is non-empty. It uses only digits of that radix, with no sign, and has no leading zero unless n is 0. |
| `JsRuntime.ParseRadix` | src/BunnyStreamClient.ts:98 | A string parses exactly when it is a non-empty run of digits of the radix. |
| `JsRuntime.RadixStringRoundTrip` | src/BunnyStreamClient.ts:98 | Parsing `n.toString(radix)` gives n back. |
| `JsRuntime.RadixStringInjective` | src/BunnyStreamClient.ts:98 | Different numbers have different renderings in one radix. |
| `JsRuntime.IntToString` | src/BunnyStreamClient.ts:127 | A non-negative integer renders as its decimal digits. A negative one renders as `-` followed by the digits of its magnitude. |
| `JsRuntime.DigitChar` | src/BunnyStreamClient.ts:98 | A digit character reads back as the digit it stands for. |
| `JsRuntime.Utf16` | src/BunnyStreamClient.ts:93 | A character gives one code unit, itself, below 0x10000. Above that it gives a high surrogate (0xD800-0xDBFF) and a low surrogate (0xDC00-0xDFFF) that decode back to the character. |
| `JsRuntime.CodeUnits` | src/BunnyStreamClient.ts:92-93 | A string has at least as many code units as characters, and each one is below 0x10000. |
| `JsRuntime.CodeUnitsConcat` | src/BunnyStreamClient.ts:88-93 | The code units of a concatenation are those of its parts, in order. |
| `JsRuntime.CodeUnitsBmp` | src/BunnyStreamClient.ts:92-93 | For characters below 0x10000, there is one code unit per character, equal to its code. |

## Left out

- Network I/O: `fetch`, `response.text()`, `response.json()` and the async/Promise sequencing are foreign calls. The response is an input record, and a successful call yields the body text. JSON decoding, and the error it raises on malformed JSON, is not part of this model.
- Transport failures (DNS, connection refused) come from fetch itself and are not modelled.
- Logging through `console.log` and `console.error` has no effect on results.
- `Date.now()` and the flooring of milliseconds are the clock, and the clock is a parameter (`nowSeconds`).
- `time` in getThumbnailUrl is an optional integer. Non-integer numbers, NaN and the float formatting of `${time}` are floating point.
- The `ok` flag and `status` of a response are independent inputs. fetch's rule that ok means a status from 200 to 299 is not modelled.
- Headers are a plain object, and object spread is case-sensitive. A `Headers` instance or an array of pairs in `options.headers`, and fetch's case-insensitive merging of header names, are not modelled. Of the other `RequestInit` fields, only `body` is passed through.
- A JavaScript string holding a lone surrogate cannot be written as a Dafny string, whose characters are Unicode scalar values.
- The `VideoMetadata` interface and the nested `video` record of `VideoPlayData` are type annotations on decoded JSON and are never checked. They are not modelled.
- `src/QuarkTVPlayer.tsx`, the documentation site and the build scripts are UI, configuration and file I/O. They are not part of this model.
- `BunnyStream.TokensDiffer`: tokens are only proved to differ when the two expirations have equally many decimal digits. The hex part can end in decimal digits, so for different digit counts the token's shape alone does not rule out equality. No colliding pair is exhibited, because that would need evaluating the hash on concrete inputs.
- `BunnyStream.ThumbnailUrlsDiffer`: for the same reason, this has the same equal-digit-count condition.
