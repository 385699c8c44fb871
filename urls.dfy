/** The URL policy shared by the requested URL and shard URLs. */
module Urls {

  /** `validateURL`: the pattern `^https{0,1}:\/\/www\.` read from the start
      of the URL: `http`, then an optional `s` (tried first), then
      `://www.`. Case-sensitive, and anything may follow. */
  function ValidateURL(url: string): (ok: bool)
    ensures ok <==> ("http://www." <= url || "https://www." <= url)
  {
    && "http" <= url
    && (|| ("s" <= url[4..] && "://www." <= url[5..])
        || "://www." <= url[4..])
  }

  /** Other schemes, an upper-case scheme and a host without `www.` are all
      refused. */
  lemma RejectedURLs()
    ensures !ValidateURL("ftp://example.com")
    ensures !ValidateURL("HTTP://www.x")
    ensures !ValidateURL("https://example.com")
  {
    assert "ftp://example.com"[0] != "http://www."[0];
    assert "HTTP://www.x"[0] != "http://www."[0];
    assert "https://example.com"[8] != "https://www."[8];
    assert "https://example.com"[7] != "http://www."[7];
  }

  lemma AcceptedURLs()
    ensures ValidateURL("https://www.example.com/page")
    ensures ValidateURL("http://www.")
  {
    assert "https://www." <= "https://www.example.com/page";
  }
}
