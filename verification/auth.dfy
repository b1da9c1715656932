/** The header builder of src/auth.ts: an authentication configuration
    becomes the map of HTTP request headers sent with every page request. */
module Auth {
  import opened Results
  import Base64
  import Utf8
  import opened Bytes

  /** How the exporter authenticates against the WordPress REST API. */
  datatype AuthConfig =
    | NoAuth
    | Basic(username: string, password: string)
    | Bearer(token: string)
    | Headers(headers: map<string, string>)

  type HeaderMap = map<string, string>

  const ContentType: string := "Content-Type"
  const Authorization: string := "Authorization"
  const JsonMediaType: string := "application/json"

  /** The HTTP Basic credential of section 2 of RFC 7617: the user-id and
      password joined by a colon, encoded as UTF-8 octets (the default
      of `Buffer.from`) and then as base64. */
  function BasicCredential(username: string, password: string): (c: string)
    ensures Base64.Decode(c) == Some(Utf8.Encode(username + ":" + password))
  {
    Base64.DecodeEncode(Utf8.Encode(username + ":" + password));
    Base64.Encode(Utf8.Encode(username + ":" + password))
  }

  /** `buildHeaders(auth)`, with `auth` absent modelled as None. The
      default map holds only the JSON content type; exactly one branch
      adds to it, chosen by the variant. */
  function BuildHeaders(auth: Option<AuthConfig>): (h: HeaderMap)
    ensures ContentType in h
    ensures auth.None? || auth.value.NoAuth? ==> h == map[ContentType := JsonMediaType]
    ensures auth.Some? && auth.value.Basic? ==>
              && h.Keys == {ContentType, Authorization}
              && h[ContentType] == JsonMediaType
              && h[Authorization] == "Basic " + BasicCredential(auth.value.username, auth.value.password)
    ensures auth.Some? && auth.value.Bearer? ==>
              && h.Keys == {ContentType, Authorization}
              && h[ContentType] == JsonMediaType
              && h[Authorization] == "Bearer " + auth.value.token
    ensures auth.Some? && auth.value.Headers? ==>
              && h.Keys == auth.value.headers.Keys + {ContentType}
              && (forall k :: k in auth.value.headers ==> h[k] == auth.value.headers[k])
              && (ContentType !in auth.value.headers ==> h[ContentType] == JsonMediaType)
  {
    var defaults := map[ContentType := JsonMediaType];
    match auth
    case None => defaults
    case Some(NoAuth) => defaults
    case Some(Basic(u, p)) => defaults[Authorization := "Basic " + BasicCredential(u, p)]
    case Some(Bearer(t)) => defaults[Authorization := "Bearer " + t]
    case Some(Headers(m)) => defaults + m
  }

  /** The content type is `application/json` unless the caller's own
      header map replaced it. */
  lemma ContentTypeIsJson(auth: Option<AuthConfig>)
    ensures BuildHeaders(auth)[ContentType] == JsonMediaType
            <== (auth.None? || !auth.value.Headers? || ContentType !in auth.value.headers)
    ensures auth.Some? && auth.value.Headers? && ContentType in auth.value.headers ==>
              BuildHeaders(auth)[ContentType] == auth.value.headers[ContentType]
  {
  }

  /** An `Authorization` header is present exactly for basic and bearer
      authentication, or when the caller's header map supplies one. */
  lemma AuthorizationPresent(auth: Option<AuthConfig>)
    ensures Authorization in BuildHeaders(auth) <==>
              auth.Some? && (auth.value.Basic? || auth.value.Bearer?
                             || (auth.value.Headers? && Authorization in auth.value.headers))
  {
  }

  /** The text after "Basic " decodes, as base64 and then as UTF-8, back
      to exactly `username:password`. */
  lemma BasicRoundTrip(username: string, password: string)
    ensures var h := BuildHeaders(Some(Basic(username, password)));
            var v := h[Authorization];
            && |v| >= 6 && v[..6] == "Basic "
            && Base64.Decode(v[6..]).Some?
            && Utf8.Decode(Base64.Decode(v[6..]).value) == Some(username + ":" + password)
  {
    var v := BuildHeaders(Some(Basic(username, password)))[Authorization];
    var bytes := Utf8.Encode(username + ":" + password);
    assert v[6..] == Base64.Encode(bytes);
    Base64.DecodeEncode(bytes);
    Utf8.DecodeEncode(username + ":" + password);
  }

  /** Two basic configurations give the same header only when their
      `username:password` strings are equal. */
  lemma BasicCredentialInjective(u1: string, p1: string, u2: string, p2: string)
    ensures BasicCredential(u1, p1) == BasicCredential(u2, p2) ==> u1 + ":" + p1 == u2 + ":" + p2
  {
    Base64.DecodeEncode(Utf8.Encode(u1 + ":" + p1));
    Base64.DecodeEncode(Utf8.Encode(u2 + ":" + p2));
    Utf8.DecodeEncode(u1 + ":" + p1);
    Utf8.DecodeEncode(u2 + ":" + p2);
  }

  /** The documented example: admin / password. */
  lemma BasicExample(username: string, password: string)
    requires username == "admin" && password == "password"
    ensures BuildHeaders(Some(Basic(username, password)))[Authorization]
            == "Basic YWRtaW46cGFzc3dvcmQ="
  {
    var c := BasicCredential(username, password);
    assert c == "YWRtaW46cGFzc3dvcmQ=" by {
      AdminText(username, password);
      AdminCredential(username + ":" + password);
    }
    BasicPrefix(c);
  }

  // The steps of the example. Each takes its literals through parameters,
  // so the verifier meets the concrete values one step at a time.

  lemma AdminText(username: string, password: string)
    requires username == "admin" && password == "password"
    ensures username + ":" + password == "admin:password"
  {
  }

  lemma BasicPrefix(c: string)
    requires c == "YWRtaW46cGFzc3dvcmQ="
    ensures "Basic " + c == "Basic YWRtaW46cGFzc3dvcmQ="
  {
  }

  /** The credential of the example, one base64 group at a time. */
  lemma AdminCredential(s: string)
    requires s == "admin:password"
    ensures Base64.Encode(Utf8.Encode(s)) == "YWRtaW46cGFzc3dvcmQ="
  {
    AdminOctets(s);
    var b := Utf8.Encode(s);
    EncodeFourteen(b);
    var t0 := Base64.EncodeBlock(b[0], b[1], b[2]);
    var t1 := Base64.EncodeBlock(b[3], b[4], b[5]);
    var t2 := Base64.EncodeBlock(b[6], b[7], b[8]);
    var t3 := Base64.EncodeBlock(b[9], b[10], b[11]);
    var t4 := Base64.Encode(b[12..]);
    assert t0 == "YWRt" by {
      BlockExample(b[0], b[1], b[2], 97, 100, 109, "YWRt");
    }
    assert t1 == "aW46" by {
      BlockExample(b[3], b[4], b[5], 105, 110, 58, "aW46");
    }
    assert t2 == "cGFz" by {
      BlockExample(b[6], b[7], b[8], 112, 97, 115, "cGFz");
    }
    assert t3 == "c3dv" by {
      BlockExample(b[9], b[10], b[11], 115, 119, 111, "c3dv");
    }
    assert t4 == "cmQ=" by {
      EncodeExample2(b[12..]);
    }
    JoinExample(t0, t1, t2, t3, t4);
  }

  /** The UTF-8 octets of "admin:password" are its ASCII codes. */
  lemma AdminOctets(s: string)
    requires s == "admin:password"
    ensures var b := Utf8.Encode(s);
            && |b| == 14
            && b[0] == 97 && b[1] == 100 && b[2] == 109 && b[3] == 105 && b[4] == 110
            && b[5] == 58 && b[6] == 112 && b[7] == 97 && b[8] == 115 && b[9] == 115
            && b[10] == 119 && b[11] == 111 && b[12] == 114 && b[13] == 100
  {
    Utf8.EncodeAscii(s);
  }

  /** Fourteen octets encode as four full groups and a final pair. */
  lemma EncodeFourteen(b: seq<byte>)
    requires |b| == 14
    ensures Base64.Encode(b) == Base64.EncodeBlock(b[0], b[1], b[2]) + Base64.EncodeBlock(b[3], b[4], b[5])
                                + Base64.EncodeBlock(b[6], b[7], b[8]) + Base64.EncodeBlock(b[9], b[10], b[11])
                                + Base64.Encode(b[12..])
  {
    var b3, b6, b9 := b[3..], b[6..], b[9..];
    assert Base64.Encode(b) == Base64.EncodeBlock(b[0], b[1], b[2]) + Base64.Encode(b3);
    assert b3[3..] == b6 && b3[0] == b[3] && b3[1] == b[4] && b3[2] == b[5];
    assert Base64.Encode(b3) == Base64.EncodeBlock(b[3], b[4], b[5]) + Base64.Encode(b6);
    assert b6[3..] == b9 && b6[0] == b[6] && b6[1] == b[7] && b6[2] == b[8];
    assert Base64.Encode(b6) == Base64.EncodeBlock(b[6], b[7], b[8]) + Base64.Encode(b9);
    assert b9[3..] == b[12..] && b9[0] == b[9] && b9[1] == b[10] && b9[2] == b[11];
    assert Base64.Encode(b9) == Base64.EncodeBlock(b[9], b[10], b[11]) + Base64.Encode(b[12..]);
  }

  /** One group of the example, with the octets given as values. */
  lemma BlockExample(x: byte, y: byte, z: byte, vx: byte, vy: byte, vz: byte, text: string)
    requires x == vx && y == vy && z == vz
    requires (vx, vy, vz, text) in {(97, 100, 109, "YWRt"), (105, 110, 58, "aW46"),
                                     (112, 97, 115, "cGFz"), (115, 119, 111, "c3dv")}
    ensures Base64.EncodeBlock(x, y, z) == text
  {
  }

  /** The example's groups joined. */
  lemma JoinExample(t0: string, t1: string, t2: string, t3: string, t4: string)
    requires t0 == "YWRt" && t1 == "aW46" && t2 == "cGFz" && t3 == "c3dv" && t4 == "cmQ="
    ensures t0 + t1 + t2 + t3 + t4 == "YWRtaW46cGFzc3dvcmQ="
  {
  }

  /** The example's final pair of octets, padded with one `=`. */
  lemma EncodeExample2(b: seq<byte>)
    requires b == [114, 100]
    ensures Base64.Encode(b) == "cmQ="
  {
  }

  /** A bearer token is sent verbatim, and the header map has exactly two
      entries. */
  lemma BearerVerbatim(token: string)
    ensures var h := BuildHeaders(Some(Bearer(token)));
            |h| == 2 && h[Authorization] == "Bearer " + token && h[Authorization][7..] == token
  {
    var h := BuildHeaders(Some(Bearer(token)));
    assert |h.Keys| == 2;
  }
}
