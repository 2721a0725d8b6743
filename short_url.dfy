/** app/utils/short_url.py: short-code generation, short-URL assembly, IP hashing
    and URL prefix validation. The two foreign pieces, shortuuid's random draw
    and SHA-256, enter as parameters. */
module ShortUrl {
  import Text

  /** The default length of generate_short_code. */
  const DefaultCodeLength: nat := 6

  /** shortuuid's default alphabet: digits and Latin letters without the
      look-alikes 0, 1, I, O and l. */
  const Alphabet: string := "23456789ABCDEFGHJKLMNPQRSTUVWXYZabcdefghijkmnopqrstuvwxyz"

  /** generate_short_code(length): `length` characters, each picked from the
      alphabet by one random draw; choice(i) is the draw for position i. */
  function GenerateShortCode(length: nat, choice: nat -> nat): (code: string)
    ensures |code| == length
    ensures forall i | 0 <= i < |code| :: code[i] in Alphabet
  {
    seq(length, (i: int) requires 0 <= i => Alphabet[choice(i) % |Alphabet|])
  }

  /** generate_short_url(base_url, short_code): the base with every trailing '/'
      removed, one '/', then the code. The ensures pin the result down: it ends
      in '/' + code, the part before that separator is a prefix of the base that
      does not end in '/', and the rest of the base is made only of '/'. */
  function GenerateShortUrl(baseUrl: string, shortCode: string): (url: string)
    ensures |url| > |shortCode|
    ensures url[|url| - |shortCode|..] == shortCode
    ensures url[|url| - |shortCode| - 1] == '/'
    ensures var base := url[..|url| - |shortCode| - 1];
      && base <= baseUrl
      && (base == [] || base[|base| - 1] != '/')
      && forall i | |base| <= i < |baseUrl| :: baseUrl[i] == '/'
  {
    var base := Text.TrimEnd(baseUrl, {'/'});
    var url := base + "/" + shortCode;
    assert url[..|url| - |shortCode| - 1] == base;
    url
  }

  /** The separator before the code is never preceded by another '/'. */
  lemma NoDoubleSlash(baseUrl: string, shortCode: string)
    ensures var url := GenerateShortUrl(baseUrl, shortCode);
      var sep := |url| - |shortCode| - 1;
      sep == 0 || url[sep - 1] != '/'
  {
    var url := GenerateShortUrl(baseUrl, shortCode);
    var sep := |url| - |shortCode| - 1;
    if sep > 0 {
      assert url[sep - 1] == url[..sep][sep - 1];
    }
  }

  /** A base with no trailing '/' is used as it is. */
  lemma PlainBase(baseUrl: string, shortCode: string)
    requires baseUrl == [] || baseUrl[|baseUrl| - 1] != '/'
    ensures GenerateShortUrl(baseUrl, shortCode) == baseUrl + "/" + shortCode
  {
  }

  /** Adding a trailing '/' to the base does not change the short URL. */
  lemma TrailingSlashIgnored(baseUrl: string, shortCode: string)
    ensures GenerateShortUrl(baseUrl + "/", shortCode) == GenerateShortUrl(baseUrl, shortCode)
  {
    assert (baseUrl + "/")[..|baseUrl|] == baseUrl;
  }

  /** The docstring example. */
  lemma DocstringExample()
    ensures GenerateShortUrl("https://onelink.app", "xK9mP2") == "https://onelink.app/xK9mP2"
  {
    PlainBase("https://onelink.app", "xK9mP2");
  }

  /** A base given with a trailing slash. */
  lemma TrailingSlashExample()
    ensures GenerateShortUrl("http://host/", "abc123") == "http://host/abc123"
  {
    assert "http://host/" == "http://host" + "/";
    TrailingSlashIgnored("http://host", "abc123");
    PlainBase("http://host", "abc123");
  }

  /** A lower-case hexadecimal SHA-256 digest: 64 characters from 0-9a-f. */
  predicate IsHexDigest(h: string) {
    |h| == 64 && forall i | 0 <= i < |h| :: h[i] in "0123456789abcdef"
  }

  type Sha256Hex = h: string | IsHexDigest(h)
    witness seq(64, _ => '0')

  /** hash_ip: the hex SHA-256 digest of the address text. The digest itself is
      hashlib's; sha256 stands for it. */
  function HashIp(sha256: string -> Sha256Hex, ipAddress: string): (h: string)
    ensures IsHexDigest(h)
  {
    sha256(ipAddress)
  }

  /** The prefixes validate_url accepts. */
  const ValidPrefixes: seq<string> := ["http://", "https://"]

  /** any(url.startswith(p) for p in prefixes). */
  function StartsWithAny(url: string, prefixes: seq<string>): (b: bool)
    ensures b <==> exists i | 0 <= i < |prefixes| :: prefixes[i] <= url
  {
    if prefixes == [] then false
    else prefixes[0] <= url || StartsWithAny(url, prefixes[1..])
  }

  /** validate_url: false for the empty string, otherwise whether the URL
      starts with one of the accepted prefixes. */
  function ValidateUrl(url: string): (ok: bool)
    ensures url == "" ==> !ok
    ensures ok <==> "http://" <= url || "https://" <= url
  {
    assert ValidPrefixes[0] == "http://" && ValidPrefixes[1] == "https://";
    if url == "" then false else StartsWithAny(url, ValidPrefixes)
  }
}
