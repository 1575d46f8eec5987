/**
 * Finding the public tunnel address in the cloudflared log: the pattern
 * `https?://[A-Za-z0-9\-]+\.trycloudflare\.com\b` written out as a matcher,
 * Python's `re.search` (leftmost match) over one line, and the scan of the
 * log's lines from the last one backwards.
 */
module TunnelLog {
  import opened Wrappers

  const HttpsScheme: string := "https://"
  const HttpScheme: string := "http://"
  const TunnelSuffix: string := ".trycloudflare.com"

  /** The class `[A-Za-z0-9\-]` of the pattern. */
  predicate IsLabelChar(c: char)
  {
    'A' <= c <= 'Z' || 'a' <= c <= 'z' || '0' <= c <= '9' || c == '-'
  }

  /** A word character for `\b`: ASCII letters, digits and underscore. */
  predicate IsWordChar(c: char)
  {
    'A' <= c <= 'Z' || 'a' <= c <= 'z' || '0' <= c <= '9' || c == '_'
  }

  /** `\b` at position j of the line: a word character on exactly one side. */
  predicate WordBoundary(line: string, j: nat)
    requires j <= |line|
  {
    (j > 0 && IsWordChar(line[j - 1])) != (j < |line| && IsWordChar(line[j]))
  }

  /** A non-empty run of label characters followed by ".trycloudflare.com". */
  predicate IsTunnelHost(h: string)
  {
    |h| > |TunnelSuffix| && h[|h| - |TunnelSuffix|..] == TunnelSuffix
    && forall k :: 0 <= k < |h| - |TunnelSuffix| ==> IsLabelChar(h[k])
  }

  /** The shape of every URL the pattern matches. */
  predicate IsTunnelUrl(u: string)
  {
    (|u| >= |HttpsScheme| && u[..|HttpsScheme|] == HttpsScheme && IsTunnelHost(u[|HttpsScheme|..]))
    || (|u| >= |HttpScheme| && u[..|HttpScheme|] == HttpScheme && IsTunnelHost(u[|HttpScheme|..]))
  }

  /** line[i..j] is a match of the pattern: the reference definition. */
  predicate MatchSpans(line: string, i: nat, j: nat)
  {
    i < j <= |line| && IsTunnelUrl(line[i..j]) && WordBoundary(line, j)
  }

  /** A match ends with the 'm' of ".com", so `\b` there means the line ends
      or goes on with a character that is not a letter, digit or underscore. */
  lemma MatchEndsBeforeNonWord(line: string, i: nat, j: nat)
    requires MatchSpans(line, i, j)
    ensures line[j - 1] == 'm'
    ensures j == |line| || !IsWordChar(line[j])
  {
    var u := line[i..j];
    assert u[|u| - 1] == line[j - 1];
    var h := if |u| >= |HttpsScheme| && u[..|HttpsScheme|] == HttpsScheme && IsTunnelHost(u[|HttpsScheme|..])
             then u[|HttpsScheme|..] else u[|HttpScheme|..];
    assert h[|h| - 1] == u[|u| - 1];
    assert h[|h| - |TunnelSuffix|..][|TunnelSuffix| - 1] == h[|h| - 1];
  }

  /** The length of the `https?://` prefix at i, or 0 when there is none. */
  function SchemeLength(line: string, i: nat): (n: nat)
    requires i <= |line|
    ensures n == 0 || n == |HttpScheme| || n == |HttpsScheme|
    ensures n == |HttpsScheme| <==> i + |HttpsScheme| <= |line| && line[i..i + |HttpsScheme|] == HttpsScheme
    ensures n == |HttpScheme| ==> i + |HttpScheme| <= |line| && line[i..i + |HttpScheme|] == HttpScheme
    ensures n == 0 ==> !(i + |HttpScheme| <= |line| && line[i..i + |HttpScheme|] == HttpScheme)
  {
    if i + |HttpsScheme| <= |line| && line[i..i + |HttpsScheme|] == HttpsScheme then |HttpsScheme|
    else if i + |HttpScheme| <= |line| && line[i..i + |HttpScheme|] == HttpScheme then |HttpScheme|
    else 0
  }

  /** The end of the longest run of label characters starting at i. */
  function LabelEnd(line: string, i: nat): (j: nat)
    requires i <= |line|
    ensures i <= j <= |line|
    decreases |line| - i
  {
    if i < |line| && IsLabelChar(line[i]) then LabelEnd(line, i + 1) else i
  }

  /** `[A-Za-z0-9\-]+` is taken greedily: the run holds only label characters
      and stops at a character that is not one, or at the end of the line. */
  lemma {:induction false} LabelEndIsMaximalRun(line: string, i: nat)
    requires i <= |line|
    ensures forall k :: i <= k < LabelEnd(line, i) ==> IsLabelChar(line[k])
    ensures LabelEnd(line, i) < |line| ==> !IsLabelChar(line[LabelEnd(line, i)])
    decreases |line| - i
  {
    if i < |line| && IsLabelChar(line[i]) {
      LabelEndIsMaximalRun(line, i + 1);
    }
  }

  /** The end of the match starting at i, if one does. The label is taken
      greedily; no shorter label can be followed by '.', so backtracking over
      it never finds another match. */
  function MatchAt(line: string, i: nat): Option<nat>
    requires i <= |line|
  {
    var s := SchemeLength(line, i);
    if s == 0 then None
    else
      var labelEnd := LabelEnd(line, i + s);
      var e := labelEnd + |TunnelSuffix|;
      if labelEnd > i + s && e <= |line| && line[labelEnd..e] == TunnelSuffix && WordBoundary(line, e) then Some(e)
      else None
  }

  /** A label run of length at least one followed by the suffix is a
      tunnel host. */
  lemma HostFromParts(line: string, a: nat, b: nat)
    requires a < b && b + |TunnelSuffix| <= |line|
    requires forall k :: a <= k < b ==> IsLabelChar(line[k])
    requires line[b..b + |TunnelSuffix|] == TunnelSuffix
    ensures IsTunnelHost(line[a..b + |TunnelSuffix|])
  {
    var h := line[a..b + |TunnelSuffix|];
    assert h[|h| - |TunnelSuffix|..] == line[b..b + |TunnelSuffix|];
    forall k | 0 <= k < |h| - |TunnelSuffix| ensures IsLabelChar(h[k]) {
      assert h[k] == line[a + k];
    }
  }

  /** A scheme prefix followed by a tunnel host is a tunnel URL. */
  lemma UrlFromParts(line: string, i: nat, s: nat, e: nat)
    requires (s == |HttpsScheme| && i + s <= |line| && line[i..i + s] == HttpsScheme)
          || (s == |HttpScheme| && i + s <= |line| && line[i..i + s] == HttpScheme)
    requires i + s <= e <= |line| && IsTunnelHost(line[i + s..e])
    ensures IsTunnelUrl(line[i..e])
  {
    var u := line[i..e];
    assert u[..s] == line[i..i + s];
    assert u[s..] == line[i + s..e];
  }

  /** Every match the matcher reports is a match of the reference definition. */
  lemma MatchAtSound(line: string, i: nat)
    requires i <= |line|
    ensures MatchAt(line, i).Some? ==> MatchSpans(line, i, MatchAt(line, i).value)
  {
    if MatchAt(line, i).Some? {
      var s := SchemeLength(line, i);
      var labelEnd := LabelEnd(line, i + s);
      var e := labelEnd + |TunnelSuffix|;
      assert MatchAt(line, i) == Some(e);
      LabelEndIsMaximalRun(line, i + s);
      HostFromParts(line, i + s, labelEnd);
      UrlFromParts(line, i, s, e);
    }
  }

  lemma {:induction false} LabelEndAt(line: string, a: nat, b: nat)
    requires a <= b < |line|
    requires forall k :: a <= k < b ==> IsLabelChar(line[k])
    requires !IsLabelChar(line[b])
    ensures LabelEnd(line, a) == b
    decreases b - a
  {
    if a < b {
      LabelEndAt(line, a + 1, b);
    }
  }

  /** "http://" never starts where "https://" does: they differ at index 4. */
  lemma SchemesExclusive(line: string, i: nat)
    requires i + |HttpScheme| <= |line| && line[i..i + |HttpScheme|] == HttpScheme
    ensures !(i + |HttpsScheme| <= |line| && line[i..i + |HttpsScheme|] == HttpsScheme)
  {
    assert line[i + 4] == line[i..i + |HttpScheme|][4] == ':';
    if i + |HttpsScheme| <= |line| {
      assert line[i + 4] == line[i..i + |HttpsScheme|][4];
    }
  }

  /** The label of a tunnel host, seen in the whole line, ends where the
      suffix starts. */
  lemma LabelOfHost(line: string, a: nat, j: nat)
    requires a <= j <= |line| && IsTunnelHost(line[a..j])
    ensures a < j - |TunnelSuffix| && line[j - |TunnelSuffix|..j] == TunnelSuffix
    ensures LabelEnd(line, a) == j - |TunnelSuffix|
  {
    var h := line[a..j];
    var b := j - |TunnelSuffix|;
    assert line[b..j] == h[|h| - |TunnelSuffix|..];
    assert line[b] == line[b..j][0] == '.';
    forall k | a <= k < b ensures IsLabelChar(line[k]) {
      assert line[k] == h[k - a];
    }
    LabelEndAt(line, a, b);
  }

  /** Once the scheme length is known, the matcher ends where the host does. */
  lemma MatchAtFromHost(line: string, i: nat, s: nat, b: nat)
    requires 0 < s && i + s < b && b + |TunnelSuffix| <= |line|
    requires SchemeLength(line, i) == s && LabelEnd(line, i + s) == b
    requires line[b..b + |TunnelSuffix|] == TunnelSuffix && WordBoundary(line, b + |TunnelSuffix|)
    ensures MatchAt(line, i) == Some(b + |TunnelSuffix|)
  {
  }

  /** A match spelled with `s` scheme characters is the one the matcher
      reports at its start. */
  lemma MatchAtCompleteWith(line: string, i: nat, s: nat, j: nat)
    requires s == |HttpsScheme| || s == |HttpScheme|
    requires i + s <= j <= |line| && SchemeLength(line, i) == s
    requires IsTunnelHost(line[i + s..j]) && WordBoundary(line, j)
    ensures MatchAt(line, i) == Some(j)
  {
    LabelOfHost(line, i + s, j);
    MatchAtFromHost(line, i, s, j - |TunnelSuffix|);
  }

  /** The matcher finds every match of the reference definition: MatchAt and
      MatchSpans agree at every start position. */
  lemma MatchAtComplete(line: string, i: nat, j: nat)
    requires MatchSpans(line, i, j)
    ensures MatchAt(line, i) == Some(j)
  {
    var u := line[i..j];
    var https := |u| >= |HttpsScheme| && u[..|HttpsScheme|] == HttpsScheme && IsTunnelHost(u[|HttpsScheme|..]);
    var s := if https then |HttpsScheme| else |HttpScheme|;
    assert u[..s] == line[i..i + s];
    assert u[s..] == line[i + s..j];
    if !https {
      SchemesExclusive(line, i);
    }
    MatchAtCompleteWith(line, i, s, j);
  }

  datatype Span = Span(start: nat, end: nat)

  /** `pattern.search(line[i..])`: the first start position at or after i
      where the matcher succeeds. */
  function SearchFrom(line: string, i: nat): (r: Option<Span>)
    requires i <= |line|
    ensures r.Some? ==> i <= r.value.start < r.value.end <= |line|
    decreases |line| - i
  {
    match MatchAt(line, i)
    case Some(e) => Some(Span(i, e))
    case None => if i == |line| then None else SearchFrom(line, i + 1)
  }

  /** Where the search stops, the matcher succeeds. */
  lemma {:induction false} SearchFromFound(line: string, i: nat)
    requires i <= |line|
    ensures SearchFrom(line, i).Some? ==>
              i <= SearchFrom(line, i).value.start <= |line|
              && MatchAt(line, SearchFrom(line, i).value.start) == Some(SearchFrom(line, i).value.end)
    decreases |line| - i
  {
    if MatchAt(line, i).None? && i < |line| {
      SearchFromFound(line, i + 1);
    }
  }

  /** No start position between i and the one the search returns (or the end
      of the line, when it returns nothing) has a match. */
  lemma {:induction false} SearchFromSkipsNothing(line: string, i: nat, k: nat)
    requires i <= k <= |line|
    requires SearchFrom(line, i).Some? ==> k < SearchFrom(line, i).value.start
    ensures MatchAt(line, k).None?
    decreases k - i
  {
    if k > i {
      SearchFromFound(line, i);
      SearchFromSkipsNothing(line, i + 1, k);
    }
  }

  /** The search returns the leftmost match of the pattern, and misses only
      when the line holds no match at all. */
  lemma SearchFindsLeftmostMatch(line: string)
    ensures SearchFrom(line, 0).None? <==> forall i: nat, j: nat :: !MatchSpans(line, i, j)
    ensures SearchFrom(line, 0).Some? ==>
              MatchSpans(line, SearchFrom(line, 0).value.start, SearchFrom(line, 0).value.end)
              && forall i: nat, j: nat :: i < SearchFrom(line, 0).value.start ==> !MatchSpans(line, i, j)
  {
    var r := SearchFrom(line, 0);
    SearchFromFound(line, 0);
    forall i: nat, j: nat | MatchSpans(line, i, j)
      ensures r.Some? && r.value.start <= i
    {
      MatchAtComplete(line, i, j);
      if r.None? || i < r.value.start {
        SearchFromSkipsNothing(line, 0, i);
      }
    }
    if r.Some? {
      MatchAtSound(line, r.value.start);
    }
  }

  /** `m.group(0)` of `pattern.search(line)`. */
  function FindUrl(line: string): Option<string>
  {
    match SearchFrom(line, 0)
    case None => None
    case Some(span) => Some(line[span.start..span.end])
  }

  /** The URL taken from a line is the leftmost match of the pattern in it,
      and there is one exactly when the line holds a match. */
  lemma FindUrlIsLeftmostMatch(line: string)
    ensures FindUrl(line).None? <==> forall i: nat, j: nat :: !MatchSpans(line, i, j)
    ensures FindUrl(line).Some? ==> IsTunnelUrl(FindUrl(line).value)
    ensures FindUrl(line).Some? ==> exists i: nat, j: nat ::
              MatchSpans(line, i, j) && FindUrl(line).value == line[i..j]
              && forall i': nat, j': nat :: i' < i ==> !MatchSpans(line, i', j')
  {
    SearchFindsLeftmostMatch(line);
  }

  /** The URL the backwards scan settles on: the match in the last line that
      has one. */
  function LastTunnelUrl(lines: seq<string>): Option<string>
  {
    if lines == [] then None
    else if FindUrl(lines[|lines| - 1]).Some? then FindUrl(lines[|lines| - 1])
    else LastTunnelUrl(lines[..|lines| - 1])
  }

  /** Line n holds `url` as its match, and no later line holds one. */
  predicate LastMatchAt(lines: seq<string>, n: nat, url: Option<string>)
  {
    n < |lines| && FindUrl(lines[n]) == url
    && forall k :: n < k < |lines| ==> FindUrl(lines[k]).None?
  }

  /** The scan finds nothing exactly when no line holds a match; otherwise it
      returns the URL of a line after which no line holds a match. */
  lemma {:induction false} LastTunnelUrlIsLastMatch(lines: seq<string>)
    ensures LastTunnelUrl(lines).None? <==> forall k :: 0 <= k < |lines| ==> FindUrl(lines[k]).None?
    ensures LastTunnelUrl(lines).Some? ==> exists n :: LastMatchAt(lines, n, LastTunnelUrl(lines))
  {
    if lines != [] {
      var last := |lines| - 1;
      if FindUrl(lines[last]).Some? {
        assert LastMatchAt(lines, last, LastTunnelUrl(lines));
      } else {
        var earlier := lines[..last];
        LastTunnelUrlIsLastMatch(earlier);
        assert forall k :: 0 <= k < last ==> earlier[k] == lines[k];
        if LastTunnelUrl(earlier).Some? {
          var n :| LastMatchAt(earlier, n, LastTunnelUrl(earlier));
          assert LastMatchAt(lines, n, LastTunnelUrl(lines));
        }
      }
    }
  }

  /** `extract_trycloudflare_url_from_log`: None when the log file is absent
      (`log` is None), otherwise the lines read from the last one backwards
      until one holds a match. */
  method ExtractTunnelUrl(log: Option<seq<string>>) returns (url: Option<string>)
    ensures log.None? ==> url.None?
    ensures log.Some? ==> url == LastTunnelUrl(log.value)
  {
    if log.None? {
      return None;
    }
    var lines := log.value;
    url := None;
    var n := |lines|;
    assert lines[..n] == lines;
    while n > 0
      invariant 0 <= n <= |lines|
      invariant LastTunnelUrl(lines) == LastTunnelUrl(lines[..n])
    {
      n := n - 1;
      var m := FindUrl(lines[n]);
      assert lines[..n + 1][..n] == lines[..n];
      if m.Some? {
        url := m;
        return;
      }
    }
  }
}
