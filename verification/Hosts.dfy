/** Host names: `normalize_host` (`src/router.rs`) and `wildcard_covers_host` (`src/proxy_config.rs`). */
module Hosts {
  import opened Prelude
  import opened Text

  function NormalizeHost(host: string): string {
    Lower(host[..IndexOf(host, {':'})])
  }

  /** True when `*.example.com` covers `app.example.com`: one label only, as in section 6.4.3 of RFC 6125. */
  predicate WildcardCovers(wildcard: string, host: string) {
    var w := Trim(wildcard);
    var h := Lower(Trim(host));
    if w == "" || h == "" then false
    else if w[0] != '*' then Lower(w) == Lower(h)
    else
      var suffix := w[1..];
      && EndsWith(h, suffix) && |h| > |suffix|
      && var prefix := h[..|h| - |suffix|];
         prefix != "" && Free(prefix, {'.'})
  }

  /** The one wildcard name that can cover `h`: a star in place of its first label. */
  function WildcardFor(h: string): Option<string> {
    var i := IndexOf(h, {'.'});
    if 0 < i < |h| then Some("*" + h[i..]) else None
  }

  lemma {:induction false} TrimEndKeeps(s: string, k: nat)
    requires 0 < k <= |s| && !IsSpace(s[k - 1])
    ensures |TrimEnd(s)| >= k && TrimEnd(s)[..k] == s[..k]
  {
    if IsSpace(s[|s| - 1]) {
      TrimEndKeeps(s[..|s| - 1], k);
      assert s[..|s| - 1][..k] == s[..k];
    }
  }

  lemma TrimKeepsStar(key: string)
    requires StartsWith(key, "*.")
    ensures StartsWith(Trim(key), "*.")
  {
    assert key[0] == key[..2][0] && key[1] == key[..2][1];
    TrimEndKeeps(key, 2);
  }

  /** At most one wildcard covers a host, and this is the one. */
  lemma OneWildcardCovers(key: string, host: string)
    requires StartsWith(key, "*.")
    ensures WildcardCovers(key, host) <==> WildcardFor(Lower(Trim(host))) == Some(Trim(key))
  {
    hide Trim, Lower;
    TrimKeepsStar(key);
    var w, h := Trim(key), Lower(Trim(host));
    var i := IndexOf(h, {'.'});
    assert w[0] == w[..2][0] == '*' && w[1] == w[..2][1] == '.';
    if WildcardCovers(key, host) {
      var n := |h| - |w| + 1;
      assert h[n..] == w[1..];
      assert h[n] == h[n..][0] == '.';
      assert forall k :: 0 <= k < n ==> h[k] == h[..n][k] != '.';
      assert i == n;
      assert w == "*" + w[1..];
    }
    if WildcardFor(h) == Some(w) {
      assert w[1..] == h[i..];
    }
  }

  lemma NormalizedHostIsLower(host: string)
    ensures Lower(NormalizeHost(host)) == NormalizeHost(host)
    ensures Free(NormalizeHost(host), {':'})
  {
  }

  /** A trimmed lower-case text is lower-case. */
  lemma TrimOfLower(s: string)
    requires Lower(s) == s
    ensures Lower(Trim(s)) == Trim(s)
  {
    var i, j := TrimSlice(s);
    var t := Trim(s);
    assert forall k :: 0 <= k < |t| ==> t[k] == s[i + k] == Lower(s)[i + k] && Lower(t)[k] == LowerChar(s[i + k]);
  }
}
