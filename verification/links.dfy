/** Stage-one href resolution: turning the `#download` attribute of the
    landing page into the address of the file-information page. */
module Links {
  import opened Text

  /** A URL with this text in it already is the file-information page. */
  const HubcloudMarker := "hubcloud.php"

  /** `s.replace(/\/$/, '')`: one trailing slash removed. */
  function DropTrailingSlash(s: string): (r: string)
    ensures r == s || r + "/" == s
    ensures r == s <==> !(|s| > 0 && s[|s| - 1] == '/')
  {
    if |s| > 0 && s[|s| - 1] == '/' then s[..|s| - 1] else s
  }

  /** `s.replace(/^\//, '')`: one leading slash removed. */
  function DropLeadingSlash(s: string): (r: string)
    ensures r == s || "/" + r == s
    ensures r == s <==> !(|s| > 0 && s[0] == '/')
  {
    if |s| > 0 && s[0] == '/' then s[1..] else s
  }

  /** The href of the `#download` anchor against the landing page's base
      origin: kept when it starts with "http"; otherwise glued to a non-empty
      base with one slash; otherwise kept as it is. */
  function ResolveHref(raw: string, base: string): (r: string)
    ensures "http" <= raw ==> r == raw
    ensures base == "" ==> r == raw
    ensures r == "" <==> raw == "" && base == ""
    ensures !("http" <= raw) && base != "" ==> r == DropTrailingSlash(base) + "/" + DropLeadingSlash(raw)
  {
    if "http" <= raw then raw
    else if base != "" then DropTrailingSlash(base) + "/" + DropLeadingSlash(raw)
    else raw
  }

  /** With at most one slash on either side of the seam, the join puts
      exactly one slash between the origin and the path. */
  lemma JoinSingleSlash(host: string, path: string, trailing: bool, leading: bool)
    requires host != [] || trailing
    requires host == [] || host[|host| - 1] != '/'
    requires path == [] || path[0] != '/'
    requires !leading ==> !("http" <= path)
    ensures ResolveHref((if leading then "/" else "") + path, host + (if trailing then "/" else "")) == host + "/" + path
  {
    var base := host + (if trailing then "/" else "");
    var raw := (if leading then "/" else "") + path;
    assert base != "";
    if trailing {
      assert base[..|base| - 1] == host;
    }
    assert DropTrailingSlash(base) == host;
    if leading {
      assert raw[1..] == path;
      assert !("http" <= raw) by { assert raw[0] == '/'; }
    }
    assert DropLeadingSlash(raw) == path;
  }

  /** A relative path against an origin with a trailing slash. */
  lemma ResolveRelativeExample()
    ensures ResolveHref("/path/x", "https://host.com/") == "https://host.com/path/x"
  {
    JoinSingleSlash("https://host.com", "path/x", true, true);
    assert "https://host.com" + "/" == "https://host.com/";
    assert "/" + "path/x" == "/path/x";
  }

  /** Only one slash is removed on each side: a protocol-relative href keeps
      its second slash, so the seam holds two. */
  lemma ResolveProtocolRelativeExample()
    ensures ResolveHref("//cdn/x", "https://h") == "https://h//cdn/x"
  {
    assert !("http" <= "//cdn/x") by { assert "//cdn/x"[0] == '/'; }
    assert DropTrailingSlash("https://h") == "https://h";
    assert DropLeadingSlash("//cdn/x") == "/cdn/x";
  }

  /** An absolute href passes through whatever the base. */
  lemma ResolveAbsoluteExample()
    ensures ResolveHref("https://other.com/x", "https://host.com") == "https://other.com/x"
  {
    assert "https://other.com/x"[..4] == "http";
  }
}
