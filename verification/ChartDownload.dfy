/** Downloading a chart: one transport taken, one option appended, one call, one release. */
module ChartDownload {
  import opened Wrappers
  import opened Strings
  import opened Transport
  import opened Slices
  import opened ChartRepository

  datatype GetterOption = Configured(name: string) | WithTransport(transport: Transport)

  datatype DownloadError = NoDownloadURL | InvalidURL | GetFailed(error: string)

  /** One call of the getter: the URL, the options it was given and its transport's TLS settings then. */
  datatype ClientCall = ClientCall(url: string, options: seq<GetterOption>, tlsConfig: Option<TlsConfig>)

  class OCIChartRepository {
    var Options: Slice<GetterOption>
    var tlsConfig: Option<TlsConfig>
    var credentialsFile: string

    constructor (options: Slice<GetterOption>, credentialsFile: string)
      ensures Options == options && tlsConfig == None && this.credentialsFile == credentialsFile
    {
      Options := options;
      tlsConfig := None;
      this.credentialsFile := credentialsFile;
    }

    /**
     parse is url.Parse followed by String; get is the getter's answer. The call, when one is made,
     sees the configured options followed by a transport of its own with the repository's TLS
     settings; afterwards that transport is pooled without them, and the options are as before.
     */
    method DownloadChart(chart: ChartVersion, parse: string -> Option<string>, get: Result<string, string>,
                         pool: Pool, grown: nat)
      returns (r: Result<string, DownloadError>, call: Option<ClientCall>)
      requires pool.Valid() && Options.Valid()
      modifies pool, pool.idle, Options.backing
      ensures pool.Valid() && Options.Visible() == old(Options.Visible())
      ensures chart.urls == [] ==> r == Err(NoDownloadURL) && call == None
      ensures chart.urls != [] && parse(chart.urls[0]).None? ==> r == Err(InvalidURL) && call == None
      ensures call.None? ==> pool.idle == old(pool.idle)
      ensures chart.urls != [] && parse(chart.urls[0]).Some? ==>
                && r == (match get case Ok(buffer) => Ok(buffer) case Err(e) => Err(GetFailed(e)))
                && call.Some?
                && (forall rest :: parse(chart.urls[0]).value == "oci://" + rest ==> call.value.url == rest)
                && ((forall rest :: parse(chart.urls[0]).value != "oci://" + rest) ==>
                      call.value.url == parse(chart.urls[0]).value)
                && call.value.tlsConfig == tlsConfig
                && |call.value.options| == |old(Options.Visible())| + 1
                && var own := call.value.options[|old(Options.Visible())|];
                   && own.WithTransport?
                   && call.value.options == old(Options.Visible()) + [own]
                   && pool.idle == old(pool.idle) + {own.transport}
                   && (own.transport in old(pool.idle) || fresh(own.transport))
    {
      if |chart.urls| == 0 {
        return Err(NoDownloadURL), None;
      }
      var url := parse(chart.urls[0]);
      if url.None? {
        return Err(InvalidURL), None;
      }
      TrimPrefixMeans(url.value, "oci://");
      var t := NewOrIdle(pool, tlsConfig);
      var clientOpts := Append(Options, WithTransport(t), grown);
      call := Some(ClientCall(TrimPrefix(url.value, OCI_PREFIX), clientOpts.backing[..clientOpts.len], t.tlsConfig));
      r := match get case Ok(buffer) => Ok(buffer) case Err(e) => Err(GetFailed(e));
      var released := Release(pool, t);
    }

    /** Removes the credentials file if there is one; remembers it when the removal fails. */
    method Clear(removes: bool) returns (ok: bool, removed: Option<string>)
      modifies this`credentialsFile
      ensures removed == if old(credentialsFile) == "" then None else Some(old(credentialsFile))
      ensures ok <==> old(credentialsFile) == "" || removes
      ensures credentialsFile == if ok then "" else old(credentialsFile)
    {
      removed := None;
      if credentialsFile != "" {
        removed := Some(credentialsFile);
        if !removes {
          return false, removed;
        }
      }
      credentialsFile := "";
      return true, removed;
    }
  }
}
