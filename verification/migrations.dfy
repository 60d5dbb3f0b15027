/** `parse_postgres_url`: the direct database connection string built from
    the hosted project's URL and its API key. */
module Migrations {
  import opened Text
  import opened Results

  /** The message of Python's `IndexError` on a list too short to index. */
  const IndexError: string := "list index out of range"

  /** `url.split('//')[1].split('.')[0]`: the project id, or `None` where
      the first index raises. */
  function ProjectId(url: string): (r: Option<string>)
    ensures r.None? <==> !Contains(url, "//")
    ensures r.Some? ==> !Contains(r.value, ".")
  {
    SplitOnSingle(url, "//");
    var parts := SplitOn(url, "//");
    if |parts| < 2 then None
    else
      SplitOnPiecesFree(parts[1], ".");
      Some(SplitOn(parts[1], ".")[0])
  }

  /** `key.split('.')[1]`: the middle segment of the key, or `None` where
      the index raises. */
  function Password(key: string): (r: Option<string>)
    ensures r.None? <==> !Contains(key, ".")
    ensures r.Some? ==> !Contains(r.value, ".")
  {
    SplitOnSingle(key, ".");
    SplitOnPiecesFree(key, ".");
    var parts := SplitOn(key, ".");
    if |parts| < 2 then None else Some(parts[1])
  }

  /** The f-string of the connection: user and database "postgres", port
      5432, host `db.<project>.supabase.co`. */
  function ConnectionString(password: string, projectId: string): string {
    var host := "db." + projectId + ".supabase.co";
    "postgres://postgres:" + password + "@" + host + ":5432/postgres"
  }

  /** The connection string for the project named in the URL, with the
      key's middle segment as the password; the URL is indexed before the
      key, and either index may raise. */
  function ParsePostgresUrl(url: string, key: string): (r: Result<string, string>)
    ensures r.Err? <==> !Contains(url, "//") || !Contains(key, ".")
    ensures r.Err? ==> r.error == IndexError
    ensures r.Ok? ==> exists id, pw :: ProjectId(url) == Some(id) && Password(key) == Some(pw) && r.value == ConnectionString(pw, id)
  {
    match ProjectId(url)
    case None => Err(IndexError)
    case Some(id) =>
      match Password(key)
      case None => Err(IndexError)
      case Some(pw) => Ok(ConnectionString(pw, id))
  }

  /** The project id of a hosted URL `<scheme>//<id>.<domain>`; the domain
      may carry a path, even one with a further "//". */
  lemma ProjectIdOfHost(scheme: string, id: string, domain: string)
    requires '/' !in scheme && '/' !in id && '.' !in id
    ensures ProjectId(scheme + "//" + id + "." + domain) == Some(id)
  {
    var rest := id + "." + domain;
    assert scheme + "//" + id + "." + domain == scheme + "//" + rest;
    SplitOnAfter(scheme, "//", rest);
    HostPiece(id, domain);
  }

  /** The first "//"-piece of `<id>.<domain>` starts with `<id>.`, so its
      first "."-piece is the id. */
  lemma HostPiece(id: string, domain: string)
    requires '/' !in id && '.' !in id
    ensures SplitOn(SplitOn(id + "." + domain, "//")[0], ".")[0] == id
  {
    var rest := id + "." + domain;
    var k := IndexOf(rest, "//");
    if k < 0 {
      SplitOnAfter(id, ".", domain);
    } else {
      assert k > |id| by {
        assert rest[..|id| + 1] == id + ".";
        assert rest[k] == '/' by { assert rest[k..][..2] == "//"; }
      }
      var cut := domain[..k - |id| - 1];
      assert SplitOn(rest, "//")[0] == id + "." + cut by {
        assert rest[..k] == id + "." + cut;
      }
      SplitOnAfter(id, ".", cut);
    }
  }

  /** The password of a three-segment key `header.payload.signature`. */
  lemma {:induction false} PasswordOfKey(header: string, payload: string, signature: string)
    requires '.' !in header && '.' !in payload
    ensures Password(header + "." + payload + "." + signature) == Some(payload)
  {
    var tail := payload + "." + signature;
    assert header + "." + payload + "." + signature == header + "." + tail;
    SplitOnAfter(header, ".", tail);
    SplitOnAfter(payload, ".", signature);
  }

  /** The hosted URL of project `id` and a three-segment key give back the
      project's host and the key's payload as the password. */
  lemma {:induction false} RecoversParts(scheme: string, id: string, domain: string,
                                         header: string, payload: string, signature: string)
    requires '/' !in scheme && '/' !in id && '.' !in id
    requires '.' !in header && '.' !in payload
    ensures ParsePostgresUrl(scheme + "//" + id + "." + domain, header + "." + payload + "." + signature)
         == Ok(ConnectionString(payload, id))
  {
    ProjectIdOfHost(scheme, id, domain);
    PasswordOfKey(header, payload, signature);
  }

  /** A URL without a scheme separator raises even with a good key. */
  lemma UrlWithoutSchemeRefused(url: string, key: string)
    requires '/' !in url
    ensures ParsePostgresUrl(url, key) == Err(IndexError)
  {
    NotContainsFirst(url, "//");
  }

  /** With no "." after the "//", the whole rest of the URL is the project id. */
  lemma {:induction false} DotlessHostKept(scheme: string, host: string)
    requires '/' !in scheme && '/' !in host && '.' !in host
    ensures ProjectId(scheme + "//" + host) == Some(host)
  {
    SplitOnAfter(scheme, "//", host);
    SplitOnAbsent(host, "//");
    SplitOnAbsent(host, ".");
  }

  /** A hosted project URL names its project id. */
  lemma ExampleProjectId()
    ensures ProjectId("https://abcd.supabase.co") == Some("abcd")
    ensures ProjectId("https://abcd.supabase.co/") == Some("abcd")
  {
    var scheme, id := "https:", "abcd";
    assert '/' !in scheme && '/' !in id && '.' !in id;
    assert scheme + "//" + id + "." + "supabase.co" == "https://abcd.supabase.co";
    ProjectIdOfHost(scheme, id, "supabase.co");
    assert scheme + "//" + id + "." + "supabase.co/" == "https://abcd.supabase.co/";
    ProjectIdOfHost(scheme, id, "supabase.co/");
  }
}
