/** Construction of the public download URL of an extraction session
    (`UploadMonitorImpl.generateCopyUrl`), and the parse that takes such a URL
    apart again. */
module CopyUrl {
  import opened Wrappers

  /** The fixed domain of the obfuscated-hostname scheme. */
  const SecureDomain := ".realhostip.com"

  /** The path under which the storage VM serves extracted images. */
  const UserDataPath := "/userdata/"

  /** `String.replace(".", "-")`: every dot becomes a dash, nothing else moves. */
  function ReplaceDots(s: string): (r: string)
    ensures |r| == |s|
    ensures forall i :: 0 <= i < |s| ==> r[i] == (if s[i] == '.' then '-' else s[i])
  {
    if s == [] then [] else [if s[0] == '.' then '-' else s[0]] + ReplaceDots(s[1..])
  }

  /** The hostname a URL is built on: the address itself, or, with secure copy,
      the address with dots turned into dashes under the fixed domain. */
  function CopyHostname(sslCopy: bool, ipAddress: string): (h: string)
    ensures !sslCopy ==> h == ipAddress
    ensures sslCopy ==> |h| == |ipAddress| + |SecureDomain| && h[|ipAddress|..] == SecureDomain
    ensures sslCopy ==> forall i :: 0 <= i < |ipAddress| ==>
      h[i] == (if ipAddress[i] == '.' then '-' else ipAddress[i])
  {
    if sslCopy then ReplaceDots(ipAddress) + SecureDomain else ipAddress
  }

  /** `generateCopyUrl(ipAddress, uuid)` with the secure-copy flag `sslCopy`. */
  function GenerateCopyUrl(sslCopy: bool, ipAddress: string, uuid: string): (r: string)
    ensures |r| == (if sslCopy then 8 + |SecureDomain| else 7) + |ipAddress| + |UserDataPath| + |uuid|
    ensures sslCopy <==> r[..8] == "https://"
    ensures !sslCopy ==> r[..7] == "http://" && r[7..7 + |ipAddress|] == ipAddress
    ensures sslCopy ==> forall i :: 8 <= i < 8 + |ipAddress| ==> r[i] != '.'
    ensures r[|r| - |uuid| - |UserDataPath|..] == UserDataPath + uuid
  {
    var host := CopyHostname(sslCopy, ipAddress);
    var prefix := if sslCopy then "https://" else "http://";
    var r := prefix + host + UserDataPath + uuid;
    assert r[|r| - |uuid| - |UserDataPath|..] == UserDataPath + uuid;
    assert r[..|prefix|] == prefix;
    assert r[|prefix|..|prefix| + |host|] == host;
    if sslCopy then
      assert host[..|ipAddress|] == ReplaceDots(ipAddress);
      r
    else
      assert r[..8][4] == ':';
      r
  }

  /** The parts a download URL is made of. */
  datatype CopyUrlParts = CopyUrlParts(secure: bool, hostname: string, token: string)

  /** The index of the first `c` in `s`, or `|s|` when there is none. */
  function IndexOf(s: string, c: char): (i: nat)
    ensures i <= |s|
    ensures i < |s| ==> s[i] == c
    ensures forall j :: 0 <= j < i ==> s[j] != c
  {
    if s == [] then 0 else if s[0] == c then 0 else 1 + IndexOf(s[1..], c)
  }

  /** Splits the text after the scheme into hostname and token: the hostname
      runs to the first slash, which must open the user-data path. */
  function SplitAfterScheme(secure: bool, rest: string): Option<CopyUrlParts> {
    var i := IndexOf(rest, '/');
    if |rest| - i >= |UserDataPath| && rest[i..i + |UserDataPath|] == UserDataPath then
      Some(CopyUrlParts(secure, rest[..i], rest[i + |UserDataPath|..]))
    else
      None
  }

  /** Takes a download URL apart into scheme, hostname and token. */
  function ParseCopyUrl(url: string): Option<CopyUrlParts> {
    if |url| >= 8 && url[..8] == "https://" then SplitAfterScheme(true, url[8..])
    else if |url| >= 7 && url[..7] == "http://" then SplitAfterScheme(false, url[7..])
    else None
  }

  /** Replacing dots never introduces a slash. */
  lemma NoSlashAfterReplaceDots(s: string)
    requires '/' !in s
    ensures '/' !in ReplaceDots(s)
  {
    var r := ReplaceDots(s);
    forall i | 0 <= i < |r| ensures r[i] != '/' {
      assert s[i] != '/';
    }
  }

  /** Hostname followed by the user-data path and the token splits back into
      the same hostname and token, as long as the hostname holds no slash. */
  lemma {:induction false} SplitJoined(secure: bool, hostname: string, token: string)
    requires '/' !in hostname
    ensures SplitAfterScheme(secure, hostname + UserDataPath + token) == Some(CopyUrlParts(secure, hostname, token))
  {
    var rest := hostname + UserDataPath + token;
    var i := IndexOf(rest, '/');
    assert forall j :: 0 <= j < |hostname| ==> rest[j] == hostname[j];
    assert rest[|hostname|] == '/';
    assert i == |hostname|;
    assert rest[i..i + |UserDataPath|] == UserDataPath;
    assert rest[..i] == hostname;
    assert rest[i + |UserDataPath|..] == token;
  }

  /** The scheme prefix of a URL decides which branch of the parse runs. */
  lemma ParseAfterScheme(secure: bool, rest: string)
    ensures ParseCopyUrl((if secure then "https://" else "http://") + rest) == SplitAfterScheme(secure, rest)
  {
    var url := (if secure then "https://" else "http://") + rest;
    if secure {
      assert url[..8] == "https://";
      assert url[8..] == rest;
    } else {
      assert url[4] == ':';
      assert url[..7] == "http://";
      assert url[7..] == rest;
    }
  }

  /** A hostname built from an address without slashes holds no slash. */
  lemma NoSlashInHostname(sslCopy: bool, ipAddress: string)
    requires '/' !in ipAddress
    ensures '/' !in CopyHostname(sslCopy, ipAddress)
  {
    if sslCopy {
      var d := ReplaceDots(ipAddress);
      NoSlashAfterReplaceDots(ipAddress);
      assert '/' !in SecureDomain;
      var host := d + SecureDomain;
      forall i | 0 <= i < |host| ensures host[i] != '/' {
        if i < |d| {
          assert host[i] == d[i];
        } else {
          assert host[i] == SecureDomain[i - |d|];
        }
      }
    }
  }

  /** A generated URL parses back into its scheme, the hostname it was built on
      and the token it carries, whenever the address holds no slash. */
  lemma {:induction false} ParseGenerateCopyUrl(sslCopy: bool, ipAddress: string, uuid: string)
    requires '/' !in ipAddress
    ensures ParseCopyUrl(GenerateCopyUrl(sslCopy, ipAddress, uuid))
         == Some(CopyUrlParts(sslCopy, CopyHostname(sslCopy, ipAddress), uuid))
  {
    var host := CopyHostname(sslCopy, ipAddress);
    var rest := host + UserDataPath + uuid;
    assert GenerateCopyUrl(sslCopy, ipAddress, uuid) == (if sslCopy then "https://" else "http://") + rest;
    NoSlashInHostname(sslCopy, ipAddress);
    SplitJoined(sslCopy, host, uuid);
    ParseAfterScheme(sslCopy, rest);
  }

  /** Two different tokens never give the same URL on the same address. */
  lemma GenerateCopyUrlTokenInjective(sslCopy: bool, ipAddress: string, u1: string, u2: string)
    requires GenerateCopyUrl(sslCopy, ipAddress, u1) == GenerateCopyUrl(sslCopy, ipAddress, u2)
    ensures u1 == u2
  {
    var r := GenerateCopyUrl(sslCopy, ipAddress, u1);
    assert |u1| == |u2|;
    var tail := r[|r| - |u1| - |UserDataPath|..];
    assert tail == UserDataPath + u1 && tail == UserDataPath + u2;
    assert u1 == tail[|UserDataPath|..] == u2;
  }

  /** The obfuscated hostname of address 10.0.0.5. */
  lemma SecureHostnameExample()
    ensures CopyHostname(true, "10.0.0.5") == "10-0-0-5.realhostip.com"
  {
    var d := ReplaceDots("10.0.0.5");
    assert |d| == 8;
    assert d[0] == '1' && d[1] == '0' && d[2] == '-' && d[3] == '0';
    assert d[4] == '-' && d[5] == '0' && d[6] == '-' && d[7] == '5';
    assert d == "10-0-0-5";
  }

  /** Without secure copy, address 10.0.0.5 and token abc give a plain URL. */
  lemma PlainCopyUrlExample()
    ensures GenerateCopyUrl(false, "10.0.0.5", "abc") == "http://10.0.0.5/userdata/abc"
  {
    assert GenerateCopyUrl(false, "10.0.0.5", "abc") == "http://" + "10.0.0.5" + "/userdata/" + "abc";
  }

  /** The text of the obfuscated example URL, assembled from its pieces. */
  lemma SecureCopyUrlText(host: string)
    requires host == "10-0-0-5.realhostip.com"
    ensures "https://" + host + UserDataPath + "abc" == "https://10-0-0-5.realhostip.com/userdata/abc"
  {
  }

  /** With secure copy, the same address and token give the obfuscated URL. */
  lemma SecureCopyUrlExample()
    ensures GenerateCopyUrl(true, "10.0.0.5", "abc") == "https://10-0-0-5.realhostip.com/userdata/abc"
  {
    var host := CopyHostname(true, "10.0.0.5");
    SecureHostnameExample();
    assert GenerateCopyUrl(true, "10.0.0.5", "abc") == "https://" + host + UserDataPath + "abc";
    SecureCopyUrlText(host);
  }
}
