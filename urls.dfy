/**
 * The one part of URL serialisation (WHATWG URL Standard) that matters to the
 * service worker: the scheme and host of an http(s) URL are lower-cased, so
 * `new URL(s).href` and the URL of `new Request(s)` differ from `s` whenever
 * the host of `s` holds an upper-case ASCII letter. Everything else the URL
 * parser does (percent-encoding, default ports, dot segments) is not modelled.
 */
module Urls {
  type Url = string

  function LowerAscii(c: char): (d: char)
    ensures d == '/' <==> c == '/'
    ensures !('A' <= d <= 'Z')
    ensures !('A' <= c <= 'Z') ==> d == c
  {
    if 'A' <= c <= 'Z' then (c as int + 32) as char else c
  }

  /** Index of the `skip`+1-th '/' at or after `i`, or |s| when there is none. */
  function SlashFrom(s: string, i: nat, skip: nat): (p: nat)
    requires i <= |s|
    ensures i <= p <= |s|
    ensures p < |s| ==> s[p] == '/'
    decreases |s| - i
  {
    if i == |s| then |s|
    else if s[i] == '/' then (if skip == 0 then i else SlashFrom(s, i + 1, skip - 1))
    else SlashFrom(s, i + 1, skip)
  }

  /** Where the path starts: the third '/' of "scheme://host/path". Everything
      before it is scheme and host. */
  function PathStart(s: string): nat
  {
    SlashFrom(s, 0, 2)
  }

  /** The serialised form of `s`: scheme and host lower-cased, the rest kept. */
  function SerializeUrl(s: Url): (r: Url)
    ensures |r| == |s|
    ensures forall k :: 0 <= k < |s| ==> r[k] == (if k < PathStart(s) then LowerAscii(s[k]) else s[k])
  {
    seq(|s|, k requires 0 <= k < |s| => if k < PathStart(s) then LowerAscii(s[k]) else s[k])
  }

  /** Two strings with '/' in the same places have their paths start at the same index. */
  lemma {:induction false} SlashFromSameSlashes(s: string, t: string, i: nat, skip: nat)
    requires i <= |s| == |t|
    requires forall k :: i <= k < |s| ==> (s[k] == '/' <==> t[k] == '/')
    ensures SlashFrom(s, i, skip) == SlashFrom(t, i, skip)
    decreases |s| - i
  {
    if i < |s| {
      if s[i] == '/' && skip == 0 {
      } else if s[i] == '/' {
        SlashFromSameSlashes(s, t, i + 1, skip - 1);
      } else {
        SlashFromSameSlashes(s, t, i + 1, skip);
      }
    }
  }

  /** Serialising an already serialised URL changes nothing. */
  lemma SerializeIdempotent(s: Url)
    ensures SerializeUrl(SerializeUrl(s)) == SerializeUrl(s)
  {
    var r := SerializeUrl(s);
    SlashFromSameSlashes(s, r, 0, 2);
    assert PathStart(r) == PathStart(s);
  }

  /** A stretch without '/' is skipped by the search for the path. */
  lemma {:induction false} SlashFreeRun(s: string, i: nat, j: nat, skip: nat)
    requires i <= j <= |s|
    requires forall m :: i <= m < j ==> s[m] != '/'
    ensures SlashFrom(s, i, skip) == SlashFrom(s, j, skip)
    decreases j - i
  {
    if i < j {
      SlashFreeRun(s, i + 1, j, skip);
    }
  }

  /** In "https://" + host + path, with no '/' in the host, serialisation
      lower-cases every character of the host. */
  lemma HttpsHostLowered(host: string, path: string)
    requires '/' !in host
    ensures forall k :: 0 <= k < |host| ==> SerializeUrl("https://" + host + path)[8 + k] == LowerAscii(host[k])
  {
    var s := "https://" + host + path;
    assert "https://" == "https:" + "//";
    forall m | 0 <= m < 6 ensures s[m] != '/' {
      assert s[m] == "https:"[m] && "https:"[m] in "https:";
    }
    forall m | 8 <= m < 8 + |host| ensures s[m] != '/' {
      assert s[m] == host[m - 8] && host[m - 8] in host;
    }
    SlashFreeRun(s, 0, 6, 2);
    SlashFreeRun(s, 8, 8 + |host|, 0);
    assert PathStart(s) >= 8 + |host|;
  }

  /** In "https://" + host + path, with no '/' in the host and a path that
      starts with '/', the path starts right after the host. */
  lemma HttpsPathStart(host: string, path: string)
    requires '/' !in host && path != [] && path[0] == '/'
    ensures PathStart("https://" + host + path) == 8 + |host|
  {
    var s := "https://" + host + path;
    assert "https://" == "https:" + "//";
    forall m | 0 <= m < 6 ensures s[m] != '/' {
      assert s[m] == "https:"[m] && "https:"[m] in "https:";
    }
    forall m | 8 <= m < 8 + |host| ensures s[m] != '/' {
      assert s[m] == host[m - 8] && host[m - 8] in host;
    }
    SlashFreeRun(s, 0, 6, 2);
    assert s[6] == '/' && s[7] == '/' && s[8 + |host|] == '/';
    SlashFreeRun(s, 8, 8 + |host|, 0);
  }
}
