/** The operator-facing logic that is not I/O: which typed answers the prompt
    loop accepts, how y/n flags are shown, and which host and region fields are
    kept for each region type or authentication type. The operator's answers are
    inputs (already read); the terminal is not modelled. */
module Prompts {
  import opened Wrappers
  import opened Records
  import opened Classifier

  /** One pass of the prompt loop's check: an empty answer takes the default
      (even one that is not among the allowed values); with no allowed values
      anything is accepted; otherwise the answer must be one of them. `None`
      means "ask again". */
  function AcceptInput(input: string, allowed: seq<string>, default: string): (r: Option<string>)
    ensures r.None? <==> input != "" && |allowed| > 0 && input !in allowed
    ensures r.Some? && input == "" ==> r.value == default
    ensures r.Some? && input != "" ==> r.value == input && (|allowed| == 0 || input in allowed)
  {
    if input == "" then Some(default)
    else if |allowed| == 0 then Some(input)
    else if input in allowed then Some(input)
    else None
  }

  /** The echoing prompt loop over the lines the operator types: the value of the
      first accepted line; `None` when the lines run out first. */
  function ReadValidated(lines: seq<string>, allowed: seq<string>, default: string): (r: Option<string>)
    ensures r.None? <==> forall i :: 0 <= i < |lines| ==> AcceptInput(lines[i], allowed, default).None?
    ensures r.Some? ==> exists i :: 0 <= i < |lines| && AcceptInput(lines[i], allowed, default) == r
                          && forall j :: 0 <= j < i ==> AcceptInput(lines[j], allowed, default).None?
    ensures r.Some? ==> |allowed| == 0 || r.value in allowed || r.value == default
  {
    if |lines| == 0 then None
    else
      var first := AcceptInput(lines[0], allowed, default);
      if first.Some? then first
      else
        var rest := ReadValidated(lines[1..], allowed, default);
        assert forall i :: 1 <= i < |lines| ==> lines[i] == lines[1..][i - 1];
        rest
  }

  /** `read_kbd`: with echo, the validating loop; without echo (password
      prompts), the first line as typed, unvalidated and with no default. */
  function ReadKbd(lines: seq<string>, allowed: seq<string>, default: string, echo: bool): (r: Option<string>)
    ensures !echo ==> (r.Some? <==> |lines| > 0) && (r.Some? ==> r.value == lines[0])
    ensures echo ==> (r.None? <==> forall i :: 0 <= i < |lines| ==> AcceptInput(lines[i], allowed, default).None?)
    ensures echo && r.Some? ==> exists i :: 0 <= i < |lines| && AcceptInput(lines[i], allowed, default) == r
                                  && forall j :: 0 <= j < i ==> AcceptInput(lines[j], allowed, default).None?
    ensures echo && r.Some? ==> |allowed| == 0 || r.value in allowed || r.value == default
  {
    if echo then ReadValidated(lines, allowed, default)
    else if |lines| > 0 then Some(lines[0])
    else None
  }

  /** `map_yn`: how a role flag is shown in the host report. */
  function MapYn(flag: string): (r: string)
    ensures r == "Enabled" <==> flag == "y"
    ensures r == "Disabled" <==> flag == "n"
    ensures r == "failed-to-map" <==> flag != "y" && flag != "n"
  {
    if flag == "y" then "Enabled"
    else if flag == "n" then "Disabled"
    else "failed-to-map"
  }

  /** The operator's answers to the manual host prompts. */
  datatype HostAnswers = HostAnswers(
    ip: string,
    hostname: string,
    bondConfig: string,
    nova: string,
    glance: string,
    cinder: string,
    designate: string,
    nodeType: string,
    clusterName: string)

  /** A manually entered host before it is tied to a region URL. */
  datatype HostMetadata = HostMetadata(
    recordSource: string,
    ip: string,
    hostname: string,
    bondConfig: string,
    kube: string,
    nova: string,
    glance: string,
    cinder: string,
    designate: string,
    nodeType: string,
    clusterName: string)

  /** `get_host_metadata`: a KVM region keeps the bond and the four OpenStack
      answers and blanks the Kubernetes fields; a Kubernetes region keeps node
      type and cluster and blanks the OpenStack fields; any other type yields
      no complete metadata. */
  function GetHostMetadata(rt: RegionType, a: HostAnswers): (r: Option<HostMetadata>)
    ensures r.Some? <==> rt == KVM || rt == Kubernetes
    ensures r.Some? ==> r.value.recordSource == UserDefined && r.value.ip == a.ip
                        && r.value.hostname == a.hostname
    ensures rt == KVM ==> r.value.kube == "n" && r.value.nodeType == "" && r.value.clusterName == ""
                          && r.value.bondConfig == a.bondConfig && r.value.nova == a.nova
                          && r.value.glance == a.glance && r.value.cinder == a.cinder
                          && r.value.designate == a.designate
    ensures rt == Kubernetes ==> r.value.kube == "y" && r.value.bondConfig == "" && r.value.nova == ""
                                 && r.value.glance == "" && r.value.cinder == ""
                                 && r.value.designate == ""
                                 && r.value.nodeType == a.nodeType && r.value.clusterName == a.clusterName
  {
    match rt
    case KVM =>
      Some(HostMetadata(UserDefined, a.ip, a.hostname, a.bondConfig, "n",
                        a.nova, a.glance, a.cinder, a.designate, "", ""))
    case Kubernetes =>
      Some(HostMetadata(UserDefined, a.ip, a.hostname, "", "y",
                        "", "", "", "", a.nodeType, a.clusterName))
    case _ => None
  }

  /** The operator's answers to the region prompts. */
  datatype RegionAnswers = RegionAnswers(
    url: string,
    user: string,
    password: string,
    tenant: string,
    regionName: string,
    proxy: string,
    dns: string,
    authType: string,
    authUsername: string,
    authPassword: string,
    authSshKey: string,
    bondIfName: string,
    bondMode: string,
    bondMtu: string)

  const AuthSimple := "simple"
  const AuthSshKey := "ssh-key"

  /** `get_du_creds` and the region record built from it: the remote-access
      password is kept only for simple authentication and the SSH key only for
      ssh-key authentication; every other answer is stored as typed. */
  function GetDuCreds(a: RegionAnswers): (d: RegionRecord)
    ensures d.authPassword == "" || d.authSshKey == ""
    ensures d.authType == AuthSimple ==> d.authPassword == a.authPassword && d.authSshKey == ""
    ensures d.authType == AuthSshKey ==> d.authSshKey == a.authSshKey && d.authPassword == ""
    ensures d.authType != AuthSimple && d.authType != AuthSshKey ==> d.authPassword == d.authSshKey == ""
    ensures d.url == a.url && d.username == a.user && d.password == a.password && d.tenant == a.tenant
            && d.region == a.regionName && d.proxy == a.proxy && d.dnsList == a.dns
            && d.authType == a.authType && d.authUsername == a.authUsername
            && d.bondIfname == a.bondIfName && d.bondMode == a.bondMode && d.bondMtu == a.bondMtu
  {
    RegionRecord(
      url := a.url,
      username := a.user,
      password := a.password,
      tenant := a.tenant,
      region := a.regionName,
      proxy := a.proxy,
      dnsList := a.dns,
      authType := a.authType,
      authSshKey := if a.authType == AuthSshKey then a.authSshKey else "",
      authPassword := if a.authType == AuthSimple then a.authPassword else "",
      authUsername := a.authUsername,
      bondIfname := a.bondIfName,
      bondMode := a.bondMode,
      bondMtu := a.bondMtu)
  }

  /** An empty answer is always accepted, so a prompt whose default is not an
      allowed value (the node-type prompt's "") can still yield that default. */
  lemma EmptyAnswerAlwaysAccepted(lines: seq<string>, allowed: seq<string>, default: string)
    requires |lines| > 0 && lines[0] == ""
    ensures ReadKbd(lines, allowed, default, true) == Some(default)
  {
  }

  /** On a KVM region the four OpenStack flags are read through y/n prompts, so
      the stored flags are always "y" or "n" and the host report always maps
      them. */
  lemma KvmPromptedFlagsAlwaysMap(a: HostAnswers, novaLines: seq<string>, glanceLines: seq<string>,
                                  cinderLines: seq<string>, designateLines: seq<string>)
    requires ReadKbd(novaLines, ["y", "n"], "y", true) == Some(a.nova)
    requires ReadKbd(glanceLines, ["y", "n"], "n", true) == Some(a.glance)
    requires ReadKbd(cinderLines, ["y", "n"], "n", true) == Some(a.cinder)
    requires ReadKbd(designateLines, ["y", "n"], "n", true) == Some(a.designate)
    ensures var m := GetHostMetadata(KVM, a).value;
            m.nova in {"y", "n"} && m.glance in {"y", "n"} && m.cinder in {"y", "n"} && m.designate in {"y", "n"}
            && MapYn(m.nova) != "failed-to-map" && MapYn(m.glance) != "failed-to-map"
            && MapYn(m.cinder) != "failed-to-map" && MapYn(m.designate) != "failed-to-map"
  {
  }
}
