/** How both nodes obtain their access token and region, and pick the API base.
    The reader (reader.py) and the writer (writer.py) carry identical copies of
    this logic; it is modelled once here. */
module Credentials {
  import opened Wrappers
  import opened Errors

  /** The name under which the token is looked up, in the environment and as a
      credentials flow variable. */
  const TokenName := "SMARTSHEET_ACCESS_TOKEN"

  // ---------------------------------------------------------------------------
  // Python's str.split(sep) and its inverse sep.join(parts)

  function Occurrences(s: string, c: char): nat
  {
    if s == [] then 0 else (if s[0] == c then 1 else 0) + Occurrences(s[1..], c)
  }

  /** `s.split(sep)`: the maximal separator-free pieces between the separators. */
  function Split(s: string, sep: char): (parts: seq<string>)
    ensures |parts| == Occurrences(s, sep) + 1
    ensures forall i :: 0 <= i < |parts| ==> sep !in parts[i]
  {
    if s == [] then [""]
    else
      var rest := Split(s[1..], sep);
      if s[0] == sep then [""] + rest else [[s[0]] + rest[0]] + rest[1..]
  }

  /** `sep.join(parts)`. */
  function Join(parts: seq<string>, sep: char): string
    requires |parts| > 0
  {
    if |parts| == 1 then parts[0] else parts[0] + [sep] + Join(parts[1..], sep)
  }

  /** Splitting loses nothing: joining the pieces back gives the original. */
  lemma {:induction false} JoinSplit(s: string, sep: char)
    ensures Join(Split(s, sep), sep) == s
  {
    if s != [] {
      var rest := Split(s[1..], sep);
      JoinSplit(s[1..], sep);
      if s[0] == sep {
        assert Split(s, sep)[1..] == rest;
      } else if |rest| == 1 {
      } else {
        assert Split(s, sep)[1..] == rest[1..];
        assert Join(rest, sep) == rest[0] + [sep] + Join(rest[1..], sep);
      }
    }
  }

  /** Splitting a separator-free prefix glued to t extends t's first piece. */
  lemma {:induction false} SplitPrefix(a: string, t: string, sep: char)
    requires sep !in a
    ensures Split(a + t, sep) == [a + Split(t, sep)[0]] + Split(t, sep)[1..]
  {
    if a != [] {
      var rest := Split(t, sep);
      assert (a + t)[0] == a[0] && (a + t)[1..] == a[1..] + t;
      SplitPrefix(a[1..], t, sep);
      var inner := Split(a[1..] + t, sep);
      assert inner == [a[1..] + rest[0]] + rest[1..];
      assert Split(a + t, sep) == [[a[0]] + inner[0]] + inner[1..];
      assert [a[0]] + (a[1..] + rest[0]) == a + rest[0];
    } else {
      var st := Split(t, sep);
      assert a + t == t && a + st[0] == st[0];
      assert [st[0]] + st[1..] == st;
    }
  }

  /** Joining separator-free pieces and splitting again gives the pieces back. */
  lemma {:induction false} SplitJoin(parts: seq<string>, sep: char)
    requires |parts| > 0
    requires forall i :: 0 <= i < |parts| ==> sep !in parts[i]
    ensures Split(Join(parts, sep), sep) == parts
  {
    if |parts| == 1 {
      SplitPrefix(parts[0], "", sep);
      assert parts[0] + "" == parts[0];
    } else {
      var tail := Join(parts[1..], sep);
      SplitJoin(parts[1..], sep);
      SplitPrefix(parts[0], [sep] + tail, sep);
      assert parts[0] + [sep] + tail == parts[0] + ([sep] + tail);
      assert ([sep] + tail)[0] == sep && ([sep] + tail)[1..] == tail;
      assert Split([sep] + tail, sep) == [""] + parts[1..];
      assert parts[0] + "" == parts[0];
      assert parts == [parts[0]] + parts[1..];
    }
  }

  // ---------------------------------------------------------------------------
  // Token and region

  /** The token and region a node talks to Smartsheet with. */
  datatype Access = Access(token: string, region: string)

  /** `_get_access_token_from_credentials_configuration`: the password of the
      credentials flow variable, or an error when it is absent or empty.
      `credential` is None when the host has no such credential. */
  function CredentialPassword(credential: Option<string>): (r: Result<string, InvalidParameters>)
    ensures r.Ok? <==> credential.Some? && credential.value != ""
    ensures r.Ok? ==> r.value == credential.value
    ensures r.Err? ==> r.error == CredentialsMissing
  {
    if credential.None? || credential.value == "" then Err(CredentialsMissing)
    else Ok(credential.value)
  }

  /** The start of `execute`: a token taken from the environment is used as it is;
      otherwise the credential's password is used, and when it splits on ':' into
      exactly two pieces the first is the region and the second the token. */
  function ResolveAccess(token: string, region: string, credential: Option<string>)
    : (r: Result<Access, InvalidParameters>)
    ensures token != "" ==> r == Ok(Access(token, region))
    ensures token == "" ==> (r.Err? <==> credential.None? || credential.value == "")
    ensures token == "" && r.Ok? ==>
      || (Occurrences(credential.value, ':') != 1 && r.value == Access(credential.value, region))
      || (Occurrences(credential.value, ':') == 1
          && r.value.region + ":" + r.value.token == credential.value
          && ':' !in r.value.region && ':' !in r.value.token)
  {
    if token != "" then Ok(Access(token, region))
    else
      match CredentialPassword(credential)
      case Err(e) => Err(e)
      case Ok(password) =>
        var parts := Split(password, ':');
        if |parts| == 2 then
          JoinSplit(password, ':');
          Ok(Access(parts[1], parts[0]))
        else Ok(Access(password, region))
  }

  /** The documented "eu:<token>" form: the prefix becomes the region. */
  lemma RegionPrefixedToken(region: string, token: string, envRegion: string)
    requires ':' !in region && ':' !in token
    ensures ResolveAccess("", envRegion, Some(region + ":" + token)) == Ok(Access(token, region))
  {
    SplitJoin([region, token], ':');
    assert Join([region, token], ':') == region + ":" + token;
  }

  /** `configure`: only checks that a token will be available. */
  function CheckConfiguration(token: string, credential: Option<string>): (r: Outcome<InvalidParameters>)
    ensures r.Fail? <==> token == "" && (credential.None? || credential.value == "")
  {
    if token == "" && CredentialPassword(credential).Err? then Fail(CredentialsMissing) else Pass
  }

  // ---------------------------------------------------------------------------
  // API base

  /** The three Smartsheet services: smartsheet.com, the European and the
      government one (the SDK's `__api_base__`, `__eu_base__`, `__gov_base__`). */
  datatype ApiBase = DefaultBase | EuBase | GovBase

  /** Region "eu" selects the European service, "gov" the government one, and
      every other region, the empty one included, the default. */
  function SelectApiBase(region: string): (b: ApiBase)
    ensures b == EuBase <==> region == "eu"
    ensures b == GovBase <==> region == "gov"
    ensures b == DefaultBase <==> region != "eu" && region != "gov"
  {
    if region == "eu" then EuBase
    else if region == "gov" then GovBase
    else DefaultBase
  }

  /** The client a node builds (`smartsheet.Smartsheet(token, api_base)`). */
  datatype Connection = Connection(token: string, base: ApiBase)
}
