/**
 * The manifest half of the link updater: take the tunnel URL from the log,
 * load the local manifest, set its `app_url` member and hand the result to
 * the publishing step (local save and the commit to the repository).
 */
module UpdateLink {
  import opened Wrappers
  import opened TunnelLog

  /** A JSON value as `json.load` returns it (numbers kept as integers). */
  datatype Json =
    | JNull
    | JBool(b: bool)
    | JNumber(n: int)
    | JString(s: string)
    | JArray(items: seq<Json>)
    | JObject(members: map<string, Json>)

  /** The local manifest file as the program finds it on disk. */
  datatype ManifestFile = Absent | Unparsable | Parsed(content: Json)

  /** How a run ends: the early exit when the log holds no URL, the error
      raised when the manifest is unreadable or not an object, or the
      manifest and commit message that are saved and published. */
  datatype Outcome =
    | Exit(code: int)
    | Crash
    | Publish(manifest: map<string, Json>, commitMessage: string)

  const AppUrlKey: string := "app_url"
  const CommitPrefix: string := "Atualiza app_url para "

  /** `load_local_manifest`: an absent file reads as the empty object, a
      file `json.load` rejects raises (None). */
  function LoadLocalManifest(file: ManifestFile): (r: Option<Json>)
    ensures file.Absent? ==> r == Some(JObject(map[]))
    ensures file.Unparsable? ==> r.None?
    ensures file.Parsed? ==> r == Some(file.content)
  {
    match file
    case Absent => Some(JObject(map[]))
    case Unparsable => None
    case Parsed(content) => Some(content)
  }

  /** `manifest['app_url'] = url` on an object. */
  function WithAppUrl(members: map<string, Json>, url: string): (m: map<string, Json>)
    ensures m.Keys == members.Keys + {AppUrlKey}
    ensures m[AppUrlKey] == JString(url)
    ensures forall k :: k in members && k != AppUrlKey ==> m[k] == members[k]
  {
    members[AppUrlKey := JString(url)]
  }

  /** Setting the URL twice is the same as setting it once. */
  lemma WithAppUrlIdempotent(members: map<string, Json>, url: string)
    ensures WithAppUrl(WithAppUrl(members, url), url) == WithAppUrl(members, url)
  {
  }

  /** A later run overwrites the URL of an earlier one and leaves every other
      member as the earlier manifest had it. */
  lemma WithAppUrlLastWins(members: map<string, Json>, first: string, second: string)
    ensures WithAppUrl(WithAppUrl(members, first), second) == WithAppUrl(members, second)
  {
  }

  /** Every URL the scan returns is a tunnel URL, so it is never empty. */
  lemma ScannedUrlIsTunnelUrl(lines: seq<string>)
    ensures LastTunnelUrl(lines).Some? ==> IsTunnelUrl(LastTunnelUrl(lines).value)
    ensures LastTunnelUrl(lines).Some? ==> |LastTunnelUrl(lines).value| > |HttpScheme| + |TunnelSuffix|
  {
    LastTunnelUrlIsLastMatch(lines);
    if LastTunnelUrl(lines).Some? {
      var n :| 0 <= n < |lines| && FindUrl(lines[n]) == LastTunnelUrl(lines);
      FindUrlIsLeftmostMatch(lines[n]);
    }
  }

  /** `main` after the token step: read the tunnel URL from the log, exit with
      status 1 when there is none, otherwise load the local manifest, set
      `app_url` and publish it with the commit message naming the URL. */
  method Run(log: Option<seq<string>>, localManifest: ManifestFile) returns (outcome: Outcome)
    ensures (log.None? || LastTunnelUrl(log.value).None?) <==> outcome == Exit(1)
    ensures outcome.Crash? <==>
              log.Some? && LastTunnelUrl(log.value).Some?
              && !(LoadLocalManifest(localManifest).Some? && LoadLocalManifest(localManifest).value.JObject?)
    ensures outcome.Publish? ==>
              log.Some? && LastTunnelUrl(log.value).Some?
              && IsTunnelUrl(LastTunnelUrl(log.value).value)
              && LoadLocalManifest(localManifest).Some? && LoadLocalManifest(localManifest).value.JObject?
              && outcome.manifest == WithAppUrl(LoadLocalManifest(localManifest).value.members, LastTunnelUrl(log.value).value)
              && outcome.commitMessage == CommitPrefix + LastTunnelUrl(log.value).value
    ensures log.Some? && LastTunnelUrl(log.value).Some?
            && LoadLocalManifest(localManifest).Some? && LoadLocalManifest(localManifest).value.JObject? ==>
              outcome.Publish?
    ensures outcome.Publish? && localManifest.Absent? ==>
              outcome.manifest == map[AppUrlKey := JString(LastTunnelUrl(log.value).value)]
  {
    var url := ExtractTunnelUrl(log);
    if log.Some? {
      ScannedUrlIsTunnelUrl(log.value);
    }
    if url.None? || url.value == "" {
      return Exit(1);
    }
    var loaded := LoadLocalManifest(localManifest);
    if loaded.None? || !loaded.value.JObject? {
      return Crash;
    }
    var manifest := WithAppUrl(loaded.value.members, url.value);
    outcome := Publish(manifest, CommitPrefix + url.value);
  }
}
