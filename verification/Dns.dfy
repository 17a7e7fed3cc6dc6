/** DNS records for a sending domain, and the checks that look for them (internal/dns/dns.go). */
module Dns {
  import opened Wrappers
  import opened Text

  datatype Config = Config(
    mailHost: string, spfInclude: string, dkimSelector: string, dkimPublicKey: string, dmarcPolicy: string,
    reportingMailbox: string, bimiLogoURL: string, bimiVMCURL: string)

  /** The service's settings, with defaults filled in. */
  function NewService(cfg: Config): (s: Config)
    ensures s.dkimSelector != "" && (s.dkimSelector == cfg.dkimSelector || s.dkimSelector == "kmail")
    ensures s.dmarcPolicy != "" && (s.dmarcPolicy == cfg.dmarcPolicy || s.dmarcPolicy == "none")
    ensures cfg.dkimSelector != "" ==> s.dkimSelector == cfg.dkimSelector
    ensures cfg.dmarcPolicy != "" ==> s.dmarcPolicy == cfg.dmarcPolicy
    ensures s.(dkimSelector := cfg.dkimSelector, dmarcPolicy := cfg.dmarcPolicy) == cfg
  {
    cfg.(dkimSelector := if cfg.dkimSelector == "" then "kmail" else cfg.dkimSelector,
         dmarcPolicy := if cfg.dmarcPolicy == "" then "none" else cfg.dmarcPolicy)
  }

  datatype Kind = MX | TXT | CNAME

  datatype Record = Record(kind: Kind, name: string, value: string, ttl: nat, priority: nat)

  /** Every record lives for an hour; mail exchangers have priority 10. */
  function Entry(kind: Kind, name: string, value: string): Record {
    Record(kind, name, value, 3600, if kind == MX then 10 else 0)
  }

  datatype Error = InvalidInput | LookupFailed

  type Outcome<T> = Result<T, Error>

  /** What the resolver says: an infrastructure error, or the values found (none is "no data"). */
  datatype Answer = Failure | Found(values: seq<string>)

  // ---- Names --------------------------------------------------------------------------------

  function TrimDot(h: string): string {
    if HasSuffix(h, ".") then h[..|h| - 1] else h
  }

  function NormalizeHost(h: string): string {
    TrimDot(ToLower(TrimSpace(h)))
  }

  function EnsureTrailingDot(h: string): string {
    if HasSuffix(h, ".") then h else h + "."
  }

  /** A host gets exactly one dot after it. */
  lemma TrailingDotIs(h: string)
    ensures EnsureTrailingDot(h + ".") == h + "." && (!HasSuffix(h, ".") ==> EnsureTrailingDot(h) == h + ".")
  {
    assert (h + ".")[|h|..] == ".";
  }

  // ---- Generating ---------------------------------------------------------------------------

  function DkimValue(s: Config): string {
    if s.dkimPublicKey == "" then "v=DKIM1; k=rsa; p=<PUBLIC_KEY>" else "v=DKIM1; k=rsa; p=" + s.dkimPublicKey
  }

  function DmarcValue(s: Config): string {
    if s.reportingMailbox == "" then "v=DMARC1; p=" + s.dmarcPolicy + "; adkim=s; aspf=s; fo=1"
    else "v=DMARC1; p=" + s.dmarcPolicy + "; rua=mailto:" + s.reportingMailbox +
         "; ruf=mailto:" + s.reportingMailbox + "; adkim=s; aspf=s; fo=1"
  }

  function SpfValue(s: Config): string {
    "v=spf1 include:" + s.spfInclude + " ~all"
  }

  function When(c: bool, records: seq<Record>): seq<Record> {
    if c then records else []
  }

  /** The part each setting contributes, in order. */
  function Part(s: Config, domain: string, k: nat): seq<Record> {
    match k
    case 0 => When(s.mailHost != "", [Entry(MX, domain, EnsureTrailingDot(s.mailHost))])
    case 1 => When(s.spfInclude != "", [Entry(TXT, domain, SpfValue(s))])
    case 2 => [Entry(TXT, s.dkimSelector + "._domainkey." + domain, DkimValue(s))]
    case 3 => [Entry(TXT, "_dmarc." + domain, DmarcValue(s))]
    case 4 => When(s.mailHost != "",
                   [Entry(TXT, "_mta-sts." + domain, "v=STSv1; id=" + domain),
                    Entry(CNAME, "mta-sts." + domain, EnsureTrailingDot("mta-sts." + s.mailHost))])
    case 5 => When(s.reportingMailbox != "",
                   [Entry(TXT, "_smtp._tls." + domain, "v=TLSRPTv1; rua=mailto:" + s.reportingMailbox)])
    case 6 => When(s.mailHost != "",
                   [Entry(CNAME, "autoconfig." + domain, EnsureTrailingDot("autoconfig." + s.mailHost)),
                    Entry(CNAME, "autodiscover." + domain, EnsureTrailingDot("autodiscover." + s.mailHost))])
    case 7 => When(s.bimiLogoURL != "", [Entry(TXT, "default._bimi." + domain, BimiValue(s))])
    case _ => []
  }

  const PARTS := 8

  function Parts(s: Config, domain: string, n: nat): seq<Record> {
    if n == 0 then [] else Parts(s, domain, n - 1) + Part(s, domain, n - 1)
  }

  function BimiValue(s: Config): string {
    if s.bimiVMCURL == "" then "v=BIMI1; l=" + s.bimiLogoURL else "v=BIMI1; l=" + s.bimiLogoURL + "; a=" + s.bimiVMCURL
  }

  function Generated(s: Config, domain: string): seq<Record> {
    if domain == "" then [] else Parts(s, domain, PARTS)
  }

  method GenerateRecords(s: Config, domain: string) returns (records: seq<Record>)
    ensures records == Generated(s, domain)
  {
    hide SpfValue, DkimValue, DmarcValue, BimiValue, EnsureTrailingDot, Parts;
    records := [];
    if domain == "" {
      return;
    }
    NextPart(s, domain, 0);
    if s.mailHost != "" {
      records := records + [Entry(MX, domain, EnsureTrailingDot(s.mailHost))];
    }
    NextPart(s, domain, 1);
    if s.spfInclude != "" {
      records := records + [Entry(TXT, domain, SpfValue(s))];
    }
    NextPart(s, domain, 2);
    records := records + [Entry(TXT, s.dkimSelector + "._domainkey." + domain, DkimValue(s))];
    NextPart(s, domain, 3);
    records := records + [Entry(TXT, "_dmarc." + domain, DmarcValue(s))];
    assert records == Parts(s, domain, 4);
    NextPart(s, domain, 4);
    if s.mailHost != "" {
      records := records + [Entry(TXT, "_mta-sts." + domain, "v=STSv1; id=" + domain)];
      records := records + [Entry(CNAME, "mta-sts." + domain, EnsureTrailingDot("mta-sts." + s.mailHost))];
    }
    assert records == Parts(s, domain, 5);
    NextPart(s, domain, 5);
    if s.reportingMailbox != "" {
      records := records + [Entry(TXT, "_smtp._tls." + domain, "v=TLSRPTv1; rua=mailto:" + s.reportingMailbox)];
    }
    assert records == Parts(s, domain, 6);
    NextPart(s, domain, 6);
    if s.mailHost != "" {
      records := records + [Entry(CNAME, "autoconfig." + domain, EnsureTrailingDot("autoconfig." + s.mailHost))];
      records := records + [Entry(CNAME, "autodiscover." + domain, EnsureTrailingDot("autodiscover." + s.mailHost))];
    }
    assert records == Parts(s, domain, 7);
    NextPart(s, domain, 7);
    if s.bimiLogoURL != "" {
      records := records + [Entry(TXT, "default._bimi." + domain, BimiValue(s))];
    }
  }

  function Only(c: bool, kind: Kind, name: string, value: string, priority: nat): seq<Record> {
    if c then [Record(kind, name, value, 3600, priority)] else []
  }

  /** The whole zone: the mail exchanger with priority 10, the rest without one, all for an hour, each
      where its setting is there. */
  lemma GeneratedZone(s: Config, domain: string)
    requires domain != ""
    ensures Generated(s, domain) ==
      Part(s, domain, 0) + Part(s, domain, 1) + Part(s, domain, 2) + Part(s, domain, 3) +
      Part(s, domain, 4) + Part(s, domain, 5) + Part(s, domain, 6) + Part(s, domain, 7)
    ensures Part(s, domain, 0) == Only(s.mailHost != "", MX, domain, EnsureTrailingDot(s.mailHost), 10)
    ensures Part(s, domain, 1) ==
      Only(s.spfInclude != "", TXT, domain, "v=spf1 include:" + s.spfInclude + " ~all", 0)
    ensures var key := if s.dkimPublicKey == "" then "<PUBLIC_KEY>" else s.dkimPublicKey;
      Part(s, domain, 2) == Only(true, TXT, s.dkimSelector + "._domainkey." + domain, "v=DKIM1; k=rsa; p=" + key, 0)
    ensures s.reportingMailbox == "" ==>
      Part(s, domain, 3) ==
      Only(true, TXT, "_dmarc." + domain, "v=DMARC1; p=" + s.dmarcPolicy + "; adkim=s; aspf=s; fo=1", 0)
    ensures s.reportingMailbox != "" ==>
      Part(s, domain, 3) ==
      Only(true, TXT, "_dmarc." + domain, "v=DMARC1; p=" + s.dmarcPolicy + "; rua=mailto:" + s.reportingMailbox +
        "; ruf=mailto:" + s.reportingMailbox + "; adkim=s; aspf=s; fo=1", 0)
    ensures Part(s, domain, 4) ==
      Only(s.mailHost != "", TXT, "_mta-sts." + domain, "v=STSv1; id=" + domain, 0) +
      Only(s.mailHost != "", CNAME, "mta-sts." + domain, EnsureTrailingDot("mta-sts." + s.mailHost), 0)
    ensures Part(s, domain, 5) ==
      Only(s.reportingMailbox != "", TXT, "_smtp._tls." + domain, "v=TLSRPTv1; rua=mailto:" + s.reportingMailbox, 0)
    ensures Part(s, domain, 6) ==
      Only(s.mailHost != "", CNAME, "autoconfig." + domain, EnsureTrailingDot("autoconfig." + s.mailHost), 0) +
      Only(s.mailHost != "", CNAME, "autodiscover." + domain, EnsureTrailingDot("autodiscover." + s.mailHost), 0)
    ensures var rest := if s.bimiVMCURL == "" then "" else "; a=" + s.bimiVMCURL;
      Part(s, domain, 7) ==
      Only(s.bimiLogoURL != "", TXT, "default._bimi." + domain, "v=BIMI1; l=" + s.bimiLogoURL + rest, 0)
  {
    hide EnsureTrailingDot, Parts;
    KeyAndLogo(s);
    EightParts(s, domain);
  }

  lemma KeyAndLogo(s: Config)
    ensures DkimValue(s) == "v=DKIM1; k=rsa; p=" + if s.dkimPublicKey == "" then "<PUBLIC_KEY>" else s.dkimPublicKey
    ensures BimiValue(s) == "v=BIMI1; l=" + s.bimiLogoURL + if s.bimiVMCURL == "" then "" else "; a=" + s.bimiVMCURL
  {
    assert "v=DKIM1; k=rsa; p=" + "<PUBLIC_KEY>" == "v=DKIM1; k=rsa; p=<PUBLIC_KEY>";
    var logo := "v=BIMI1; l=" + s.bimiLogoURL;
    assert logo + ("; a=" + s.bimiVMCURL) == logo + "; a=" + s.bimiVMCURL && logo + "" == logo;
  }

  lemma EightParts(s: Config, domain: string)
    ensures Parts(s, domain, PARTS) ==
      Part(s, domain, 0) + Part(s, domain, 1) + Part(s, domain, 2) + Part(s, domain, 3) +
      Part(s, domain, 4) + Part(s, domain, 5) + Part(s, domain, 6) + Part(s, domain, 7)
  {
    hide Parts, Part;
    NextPart(s, domain, 0);
    NextPart(s, domain, 1);
    NextPart(s, domain, 2);
    NextPart(s, domain, 3);
    NextPart(s, domain, 4);
    NextPart(s, domain, 5);
    NextPart(s, domain, 6);
    NextPart(s, domain, 7);
    assert [] + Part(s, domain, 0) == Part(s, domain, 0);
  }

  lemma NextPart(s: Config, domain: string, n: nat)
    ensures Parts(s, domain, n + 1) == Parts(s, domain, n) + Part(s, domain, n)
    ensures Parts(s, domain, 0) == []
  {
  }

  // ---- Checking -----------------------------------------------------------------------------

  predicate PointsAt(host: string, target: string) {
    host == target || HasSuffix(host, "." + target)
  }

  predicate MxMatches(s: Config, host: string) {
    s.mailHost != "" && PointsAt(NormalizeHost(host), NormalizeHost(s.mailHost))
  }

  predicate SomeMx(s: Config, answer: Answer) {
    answer.Found? && exists v :: v in answer.values && MxMatches(s, v)
  }

  predicate SpfMatches(s: Config, txt: string) {
    s.spfInclude != "" && HasPrefix(ToLower(txt), "v=spf1") &&
    Contains(ToLower(txt), "include:" + ToLower(s.spfInclude))
  }

  predicate SomeSpf(s: Config, answer: Answer) {
    answer.Found? && exists v :: v in answer.values && SpfMatches(s, v)
  }

  /** `name=value` with name `p` and a value. */
  predicate IsKeyTag(part: string) {
    var t := TrimSpace(part);
    var i := IndexOf(t, "=");
    i.At? && EqualFold(TrimSpace(t[..i.i]), "p") && TrimSpace(t[i.i + 1..]) != ""
  }

  predicate DkimMatches(txt: string) {
    Contains(ToLower(TrimSpace(txt)), "v=dkim1") && SomeKeyTag(Split(txt, ';'))
  }

  predicate SomeKeyTag(parts: seq<string>) {
    exists i :: 0 <= i < |parts| && IsKeyTag(parts[i])
  }

  predicate DmarcMatches(txt: string) {
    HasPrefix(ToLower(TrimSpace(txt)), "v=dmarc1")
  }

  method CheckMX(s: Config, domain: string, answer: Answer) returns (r: Outcome<bool>)
    ensures r == Err(InvalidInput) <==> domain == ""
    ensures r == Err(LookupFailed) <==> domain != "" && answer.Failure?
    ensures r == Ok(true) <==> domain != "" && answer.Found? && exists v :: v in answer.values && MxMatches(s, v)
  {
    hide NormalizeHost, PointsAt;
    if domain == "" {
      return Err(InvalidInput);
    }
    if answer.Failure? {
      return Err(LookupFailed);
    }
    if s.mailHost == "" {
      return Ok(false);
    }
    var target := NormalizeHost(s.mailHost);
    for i := 0 to |answer.values|
      invariant forall j :: 0 <= j < i ==> !MxMatches(s, answer.values[j])
    {
      if PointsAt(NormalizeHost(answer.values[i]), target) {
        assert answer.values[i] in answer.values && MxMatches(s, answer.values[i]);
        return Ok(true);
      }
    }
    return Ok(false);
  }

  /** With no include configured the check is negative before any lookup. */
  method CheckSPF(s: Config, domain: string, answer: Answer) returns (r: Outcome<bool>)
    ensures r == Err(InvalidInput) <==> domain == ""
    ensures r == Err(LookupFailed) <==> domain != "" && s.spfInclude != "" && answer.Failure?
    ensures r == Ok(true) <==> domain != "" && answer.Found? && exists v :: v in answer.values && SpfMatches(s, v)
  {
    if domain == "" {
      return Err(InvalidInput);
    }
    if s.spfInclude == "" {
      return Ok(false);
    }
    if answer.Failure? {
      return Err(LookupFailed);
    }
    var needle := "include:" + ToLower(s.spfInclude);
    for i := 0 to |answer.values|
      invariant forall j :: 0 <= j < i ==> !SpfMatches(s, answer.values[j])
    {
      var lower := ToLower(answer.values[i]);
      if HasPrefix(lower, "v=spf1") && Contains(lower, needle) {
        assert answer.values[i] in answer.values && SpfMatches(s, answer.values[i]);
        return Ok(true);
      }
    }
    return Ok(false);
  }

  method HasDKIMPublicKey(txt: string) returns (found: bool)
    ensures found <==> DkimMatches(txt)
  {
    hide IsKeyTag;
    var lower := ToLower(TrimSpace(txt));
    if !Contains(lower, "v=dkim1") {
      return false;
    }
    var parts := Split(txt, ';');
    for i := 0 to |parts|
      invariant forall j :: 0 <= j < i ==> !IsKeyTag(parts[j])
    {
      if IsKeyTag(parts[i]) {
        return true;
      }
    }
    return false;
  }

  predicate SomeDkim(answer: Answer) {
    answer.Found? && exists v :: v in answer.values && DkimMatches(v)
  }

  predicate SomeDmarc(answer: Answer) {
    answer.Found? && exists v :: v in answer.values && DmarcMatches(v)
  }

  /** The name looked up is `selector._domainkey.domain`, with the default selector for none. */
  method CheckDKIM(s: Config, domain: string, selector: string, lookup: string -> Answer) returns (r: Outcome<bool>)
    ensures r == Err(InvalidInput) <==> domain == ""
    ensures var sel := if selector == "" then s.dkimSelector else selector;
      var answer := lookup(sel + "._domainkey." + domain);
      && (r == Err(LookupFailed) <==> domain != "" && sel != "" && answer.Failure?)
      && (r == Ok(true) <==>
          domain != "" && sel != "" && answer.Found? && exists v :: v in answer.values && DkimMatches(v))
  {
    hide DkimMatches;
    if domain == "" {
      return Err(InvalidInput);
    }
    var sel := if selector == "" then s.dkimSelector else selector;
    if sel == "" {
      return Ok(false);
    }
    var answer := lookup(sel + "._domainkey." + domain);
    if answer.Failure? {
      return Err(LookupFailed);
    }
    for i := 0 to |answer.values|
      invariant forall j :: 0 <= j < i ==> !DkimMatches(answer.values[j])
    {
      var found := HasDKIMPublicKey(answer.values[i]);
      if found {
        assert answer.values[i] in answer.values;
        return Ok(true);
      }
    }
    return Ok(false);
  }

  method CheckDMARC(domain: string, lookup: string -> Answer) returns (r: Outcome<bool>)
    ensures r == Err(InvalidInput) <==> domain == ""
    ensures r == Err(LookupFailed) <==> domain != "" && lookup("_dmarc." + domain).Failure?
    ensures var answer := lookup("_dmarc." + domain);
      r == Ok(true) <==> domain != "" && answer.Found? && exists v :: v in answer.values && DmarcMatches(v)
  {
    hide DmarcMatches;
    if domain == "" {
      return Err(InvalidInput);
    }
    var answer := lookup("_dmarc." + domain);
    if answer.Failure? {
      return Err(LookupFailed);
    }
    for i := 0 to |answer.values|
      invariant forall j :: 0 <= j < i ==> !DmarcMatches(answer.values[j])
    {
      if DmarcMatches(answer.values[i]) {
        assert answer.values[i] in answer.values;
        return Ok(true);
      }
    }
    return Ok(false);
  }

  // ---- What the checks accept -------------------------------------------------------------------

  /** A host name as one writes it: no whitespace around it and no dot after it. */
  predicate BareHost(h: string) {
    h != "" && !IsSpace(h[0]) && !IsSpace(h[|h| - 1]) && h[|h| - 1] != '.'
  }

  lemma NormalizePlain(h: string)
    requires BareHost(h)
    ensures NormalizeHost(h) == ToLower(h) && NormalizeHost(h + ".") == ToLower(h)
  {
    hide TrimSpace;
    var low := ToLower(h);
    assert low[|low| - 1] != '.';
    assert ToLower(h + ".") == low + ".";
    assert (low + ".")[..|low|] == low && (low + ".")[|low|..] == ".";
    assert !HasSuffix(low, ".");
  }

  /** A mail exchanger is accepted when it is the configured host or a host under it, in any letter case,
      and a dot after it does not matter. */
  lemma MxMatchesIff(s: Config, h: string)
    requires BareHost(s.mailHost) && BareHost(h)
    ensures MxMatches(s, h) <==> EqualFold(h, s.mailHost) || exists x :: EqualFold(h, x + "." + s.mailHost)
    ensures MxMatches(s, h + ".") <==> MxMatches(s, h)
  {
    hide NormalizeHost, HasSuffix, ToLower;
    NormalizePlain(h);
    NormalizePlain(s.mailHost);
    SuffixIff(h, s.mailHost);
  }

  lemma SuffixIff(h: string, t: string)
    ensures HasSuffix(ToLower(h), "." + ToLower(t)) <==> exists x :: EqualFold(h, x + "." + t)
  {
    var low, end := ToLower(h), "." + ToLower(t);
    if HasSuffix(low, end) {
      var x := h[..|h| - |end|];
      LowerConcat(x + ".", t);
      LowerConcat(x, ".");
      assert ToLower(x) == low[..|low| - |end|] && low == low[..|low| - |end|] + low[|low| - |end|..];
      assert ToLower(x) + "." + ToLower(t) == ToLower(x) + end;
      assert EqualFold(h, x + "." + t);
    }
    if x :| EqualFold(h, x + "." + t) {
      LowerConcat(x + ".", t);
      LowerConcat(x, ".");
      assert ToLower(x) + "." + ToLower(t) == ToLower(x) + end;
    }
  }

  /** An SPF text starts with its version and holds the include, in any letter case. */
  lemma SpfMatchesIff(s: Config, txt: string)
    ensures SpfMatches(s, txt) <==>
      && s.spfInclude != "" && |txt| >= 6 && EqualFold(txt[..6], "v=spf1")
      && exists a, b :: EqualFold(txt, a + ("include:" + s.spfInclude) + b)
  {
    hide Contains;
    assert ToLower("include:") == "include:" && ToLower("v=spf1") == "v=spf1";
    LowerConcat("include:", s.spfInclude);
    ContainsIff(txt, "include:" + s.spfInclude);
    assert |txt| >= 6 ==> ToLower(txt[..6]) == ToLower(txt)[..6];
  }

  lemma DmarcMatchesIff(txt: string)
    ensures var t := TrimSpace(txt); DmarcMatches(txt) <==> |t| >= 8 && EqualFold(t[..8], "v=DMARC1")
  {
    hide TrimSpace;
    var t := TrimSpace(txt);
    assert ToLower("v=DMARC1") == "v=dmarc1";
    assert |t| >= 8 ==> ToLower(t[..8]) == ToLower(t)[..8];
  }

  /** A DKIM text names its version anywhere, and has a part that is a key tag. */
  lemma DkimMatchesIff(txt: string)
    ensures DkimMatches(txt) <==>
      && (exists a, b :: EqualFold(TrimSpace(txt), a + "v=DKIM1" + b))
      && exists part :: part in Split(txt, ';') && IsKeyTag(part)
  {
    hide TrimSpace, Contains, IsKeyTag, Split;
    assert ToLower("v=DKIM1") == "v=dkim1";
    ContainsIff(TrimSpace(txt), "v=DKIM1");
    var parts := Split(txt, ';');
    if i :| 0 <= i < |parts| && IsKeyTag(parts[i]) {
      assert parts[i] in parts;
    }
  }

  lemma {:induction false} TrimLeftBefore(name: string, c: char, rest: string)
    requires !IsSpace(c)
    ensures TrimLeft(name + [c] + rest) == TrimLeft(name) + [c] + rest
    ensures TrimLeft(TrimLeft(name)) == TrimLeft(name) && forall x :: x in TrimLeft(name) ==> x in name
  {
    var t := name + [c] + rest;
    if name == "" {
      assert t == [c] + rest;
    } else if IsSpace(name[0]) {
      assert t[1..] == name[1..] + [c] + rest;
      TrimLeftBefore(name[1..], c, rest);
    }
  }

  /** The key tag: the name before the first equals sign is `p`, in either case and with whitespace
      around it, and the value after it is not blank. */
  lemma KeyTagSplit(name: string, value: string)
    requires '=' !in name
    ensures IsKeyTag(name + "=" + value) <==> EqualFold(TrimSpace(name), "p") && TrimSpace(value) != ""
  {
    hide IndexOf, TrimLeft, TrimRight, ToLower;
    TrimLeftBefore(name, '=', value);
    var l, r := TrimLeft(name), TrimRight(value);
    TrimRightAfter(l + "=", value);
    var t := l + "=" + r;
    assert TrimSpace(name + "=" + value) == t;
    assert OccursAt(t, "=", |l|) by { assert t[|l|..|l| + 1] == "="; }
    forall k: nat | k < |l| ensures !OccursAt(t, "=", k) { assert t[k..k + 1][0] == l[k]; }
    IndexOfIs(t, "=", |l|);
    assert t[..|l|] == l && t[|l| + 1..] == r;
    assert TrimSpace(l) == TrimSpace(name);
    BlankRight(value);
  }

  lemma BlankRight(value: string)
    ensures TrimSpace(TrimRight(value)) == "" <==> TrimSpace(value) == ""
  {
    TrimSpaceBlank(value);
    TrimSpaceBlank(TrimRight(value));
    TrimRightSplits(value);
    assert AllSpace(TrimRight(value)) <==> AllSpace(value);
  }

  lemma NoTag(part: string)
    requires '=' !in part
    ensures !IsKeyTag(part)
  {
    hide IndexOf;
    var t := TrimSpace(part);
    TrimmedInside(part);
    forall k: nat ensures !OccursAt(t, "=", k) {
      if k < |t| { assert t[k..k + 1][0] == t[k]; }
    }
  }

  lemma TrimmedInside(s: string)
    ensures forall x :: x in TrimSpace(s) ==> x in s
  {
    TrimLeftBefore(s, '=', "");
    TrimRightSplits(TrimLeft(s));
  }

  // ---- Verifying a domain -----------------------------------------------------------------------

  datatype Verification = Verification(mx: bool, spf: bool, dkim: bool, dmarc: bool, verified: bool)

  /** What the resolver answers for a kind and a name. */
  type Resolver = (Kind, string) -> Answer

  /** Some lookup the checks make fails. */
  predicate SomeLookupFails(s: Config, domain: string, lookup: Resolver) {
    lookup(MX, domain).Failure? || (s.spfInclude != "" && lookup(TXT, domain).Failure?) ||
    (s.dkimSelector != "" && lookup(TXT, s.dkimSelector + "._domainkey." + domain).Failure?) ||
    lookup(TXT, "_dmarc." + domain).Failure?
  }

  lemma TwoErrors(e: Error)
    ensures e == InvalidInput || e == LookupFailed
  {
  }

  /** The four checks of `VerifyDomain`, in order, with the default selector. */
  method VerifyDomain(s: Config, domain: string, lookup: Resolver) returns (r: Outcome<Verification>)
    ensures r == Err(InvalidInput) <==> domain == ""
    ensures r == Err(LookupFailed) <==> domain != "" && SomeLookupFails(s, domain, lookup)
    ensures r.Ok? ==>
      && r.value.mx == SomeMx(s, lookup(MX, domain)) && r.value.spf == SomeSpf(s, lookup(TXT, domain))
      && r.value.dkim == (s.dkimSelector != "" && SomeDkim(lookup(TXT, s.dkimSelector + "._domainkey." + domain)))
      && r.value.dmarc == SomeDmarc(lookup(TXT, "_dmarc." + domain))
      && r.value.verified == (r.value.mx && r.value.spf && r.value.dkim && r.value.dmarc)
  {
    hide MxMatches, SpfMatches, DkimMatches, DmarcMatches;
    var mx := CheckMX(s, domain, lookup(MX, domain));
    if mx.Err? {
      TwoErrors(mx.error);
      return Err(mx.error);
    }
    var spf := CheckSPF(s, domain, lookup(TXT, domain));
    if spf.Err? {
      TwoErrors(spf.error);
      return Err(spf.error);
    }
    var txt := name => lookup(TXT, name);
    var dkim := CheckDKIM(s, domain, "", txt);
    if dkim.Err? {
      TwoErrors(dkim.error);
      return Err(dkim.error);
    }
    var dmarc := CheckDMARC(domain, txt);
    if dmarc.Err? {
      TwoErrors(dmarc.error);
      return Err(dmarc.error);
    }
    var verified := mx.value && spf.value && dkim.value && dmarc.value;
    r := Ok(Verification(mx.value, spf.value, dkim.value, dmarc.value, verified));
  }

  // ---- A zone that publishes the records ------------------------------------------------------

  /** What a zone holding exactly `records` answers. */
  function ValuesAt(records: seq<Record>, kind: Kind, name: string): seq<string> {
    if records == [] then []
    else
      var rest := ValuesAt(records[1..], kind, name);
      if records[0].kind == kind && records[0].name == name then [records[0].value] + rest else rest
  }

  lemma {:induction false} ValuesConcat(xs: seq<Record>, ys: seq<Record>, kind: Kind, name: string)
    ensures ValuesAt(xs + ys, kind, name) == ValuesAt(xs, kind, name) + ValuesAt(ys, kind, name)
  {
    if xs == [] {
      assert xs + ys == ys;
    } else {
      assert (xs + ys)[1..] == xs[1..] + ys;
      ValuesConcat(xs[1..], ys, kind, name);
    }
  }

  lemma ValuesOfOne(r: Record, kind: Kind, name: string)
    ensures ValuesAt([r], kind, name) == if r.kind == kind && r.name == name then [r.value] else []
  {
    assert [r][1..] == [];
  }

  lemma ValuesOfTwo(a: Record, b: Record, kind: Kind, name: string)
    ensures ValuesAt([a, b], kind, name) == ValuesAt([a], kind, name) + ValuesAt([b], kind, name)
  {
    assert [a, b] == [a] + [b];
    ValuesConcat([a], [b], kind, name);
  }

  /** Only one part of the generated records answers the query. */
  ghost predicate OnlyFrom(s: Config, domain: string, kind: Kind, name: string, j: nat) {
    forall k: nat :: k != j ==> ValuesAt(Part(s, domain, k), kind, name) == []
  }

  lemma {:induction false} ValuesFromPart(s: Config, domain: string, kind: Kind, name: string, j: nat, n: nat)
    requires OnlyFrom(s, domain, kind, name, j)
    ensures ValuesAt(Parts(s, domain, n), kind, name) == if j < n then ValuesAt(Part(s, domain, j), kind, name) else []
  {
    hide Part, Parts, ValuesAt;
    if n == 0 {
      NextPart(s, domain, 0);
      NoValues(kind, name);
    } else {
      ValuesFromPart(s, domain, kind, name, j, n - 1);
      NextPart(s, domain, n - 1);
      ValuesConcat(Parts(s, domain, n - 1), Part(s, domain, n - 1), kind, name);
      assert n - 1 != j ==> ValuesAt(Part(s, domain, n - 1), kind, name) == [];
    }
  }

  lemma NoValues(kind: Kind, name: string)
    ensures ValuesAt([], kind, name) == []
  {
  }

  /** The name and kind of every record a part can hold. */
  lemma PartAnswers(s: Config, domain: string, k: nat, kind: Kind, name: string)
    requires ValuesAt(Part(s, domain, k), kind, name) != []
    ensures kind == MX ==> k == 0
    ensures kind == TXT && k == 1 ==> name == domain
    ensures kind == TXT && k == 2 ==> name == s.dkimSelector + "._domainkey." + domain
    ensures kind == TXT && k == 3 ==> name == "_dmarc." + domain
    ensures kind == TXT && k == 4 ==> name == "_mta-sts." + domain
    ensures kind == TXT && k == 5 ==> name == "_smtp._tls." + domain
    ensures kind == TXT && k == 7 ==> name == "default._bimi." + domain
    ensures kind == TXT ==> k in {1, 2, 3, 4, 5, 7}
  {
    hide SpfValue, DkimValue, DmarcValue, BimiValue, EnsureTrailingDot;
    var p := Part(s, domain, k);
    if |p| == 1 {
      ValuesOfOne(p[0], kind, name);
      assert p == [p[0]];
    } else if |p| == 2 {
      assert p == [p[0], p[1]];
      ValuesOfTwo(p[0], p[1], kind, name);
      ValuesOfOne(p[0], kind, name);
      ValuesOfOne(p[1], kind, name);
    }
  }

  lemma SuffixCancels(x: string, y: string, d: string)
    requires x + d == y + d
    ensures x == y
  {
    assert |x| == |y|;
    assert (x + d)[..|x|] == x && (y + d)[..|y|] == y;
  }

  /** No other generated name is the DKIM name. */
  lemma DkimNameApart(selector: string, domain: string, x: string)
    requires x in {"", "_dmarc.", "_mta-sts.", "_smtp._tls.", "default._bimi."}
    ensures x + domain != selector + "._domainkey." + domain
  {
    var y := selector + "._domainkey.";
    assert y[|y| - 2] == 'y';
    if x + domain == y + domain {
      SuffixCancels(x, y, domain);
    }
  }

  lemma MxValues(s: Config, domain: string)
    requires domain != "" && s.mailHost != ""
    ensures ValuesAt(Generated(s, domain), MX, domain) == [EnsureTrailingDot(s.mailHost)]
  {
    hide Part, EnsureTrailingDot;
    forall k: nat | k != 0 ensures ValuesAt(Part(s, domain, k), MX, domain) == [] {
      if ValuesAt(Part(s, domain, k), MX, domain) != [] {
        PartAnswers(s, domain, k, MX, domain);
      }
    }
    ValuesFromPart(s, domain, MX, domain, 0, PARTS);
    FirstPart(s, domain);
    ValuesOfOne(Entry(MX, domain, EnsureTrailingDot(s.mailHost)), MX, domain);
  }

  lemma FirstPart(s: Config, domain: string)
    requires s.mailHost != ""
    ensures Part(s, domain, 0) == [Entry(MX, domain, EnsureTrailingDot(s.mailHost))]
  {
    hide EnsureTrailingDot;
  }

  lemma DkimValues(s: Config, domain: string)
    requires domain != ""
    ensures ValuesAt(Generated(s, domain), TXT, s.dkimSelector + "._domainkey." + domain) == [DkimValue(s)]
  {
    var name := s.dkimSelector + "._domainkey." + domain;
    assert Part(s, domain, 2) == [Entry(TXT, name, DkimValue(s))];
    hide Part, DkimValue;
    assert "" + domain == domain;
    forall k: nat | k != 2 ensures ValuesAt(Part(s, domain, k), TXT, name) == [] {
      if ValuesAt(Part(s, domain, k), TXT, name) != [] {
        PartAnswers(s, domain, k, TXT, name);
        DkimNameApart(s.dkimSelector, domain, "");
        DkimNameApart(s.dkimSelector, domain, "_dmarc.");
        DkimNameApart(s.dkimSelector, domain, "_mta-sts.");
        DkimNameApart(s.dkimSelector, domain, "_smtp._tls.");
        DkimNameApart(s.dkimSelector, domain, "default._bimi.");
      }
    }
    ValuesFromPart(s, domain, TXT, name, 2, PARTS);
    ValuesOfOne(Entry(TXT, name, DkimValue(s)), TXT, name);
  }

  /** A value one part answers with is among the answers. */
  lemma {:induction false} PartIsPublished(s: Config, domain: string, kind: Kind, name: string, j: nat, n: nat,
      v: string)
    requires j < n && v in ValuesAt(Part(s, domain, j), kind, name)
    ensures v in ValuesAt(Parts(s, domain, n), kind, name)
  {
    hide Part;
    ValuesConcat(Parts(s, domain, n - 1), Part(s, domain, n - 1), kind, name);
    if j < n - 1 {
      PartIsPublished(s, domain, kind, name, j, n - 1, v);
    }
  }

  lemma SpfPublished(s: Config, domain: string)
    requires domain != "" && s.spfInclude != ""
    ensures SpfValue(s) in ValuesAt(Generated(s, domain), TXT, domain)
  {
    hide SpfValue;
    ValuesOfOne(Entry(TXT, domain, SpfValue(s)), TXT, domain);
    PartIsPublished(s, domain, TXT, domain, 1, PARTS, SpfValue(s));
  }

  lemma DmarcPublished(s: Config, domain: string)
    requires domain != ""
    ensures DmarcValue(s) in ValuesAt(Generated(s, domain), TXT, "_dmarc." + domain)
  {
    hide DmarcValue;
    ValuesOfOne(Entry(TXT, "_dmarc." + domain, DmarcValue(s)), TXT, "_dmarc." + domain);
    PartIsPublished(s, domain, TXT, "_dmarc." + domain, 3, PARTS, DmarcValue(s));
  }

  // ---- The generated values pass --------------------------------------------------------------

  lemma LowerPrefix(p: string, rest: string)
    ensures ToLower(p + rest)[..|p|] == ToLower(p) && ToLower(p + rest) == ToLower(p) + ToLower(rest)
  {
    LowerConcat(p, rest);
  }

  lemma SpfValueMatches(s: Config)
    requires s.spfInclude != ""
    ensures SpfMatches(s, SpfValue(s))
  {
    var v, inc := SpfValue(s), ToLower(s.spfInclude);
    LowerConcat("v=spf1 include:" + s.spfInclude, " ~all");
    LowerConcat("v=spf1 include:", s.spfInclude);
    assert ToLower("v=spf1 include:") == "v=spf1 include:";
    var lower := "v=spf1 include:" + inc + ToLower(" ~all");
    assert lower[..6] == "v=spf1";
    assert OccursAt(lower, "include:" + inc, 7) by {
      assert lower[7..15 + |inc|] == "include:" + inc;
    }
  }

  /** Trimming the right of a text that begins with `p` keeps `p` when `p` ends in a visible
      character. */
  lemma {:induction false} TrimKeepsPrefix(p: string, rest: string)
    requires p != "" && !IsSpace(p[|p| - 1])
    ensures HasPrefix(TrimRight(p + rest), p)
    decreases |rest|
  {
    if rest == "" {
      assert p + rest == p;
    } else {
      var n := |rest| - 1;
      assert (p + rest)[..|p + rest| - 1] == p + rest[..n];
      TrimKeepsPrefix(p, rest[..n]);
      assert (p + rest)[..|p|] == p;
    }
  }

  /** So does trimming both sides, and lower-casing carries over. */
  lemma TrimmedLowerPrefix(p: string, rest: string)
    requires p != "" && !IsSpace(p[0]) && !IsSpace(p[|p| - 1])
    ensures HasPrefix(ToLower(TrimSpace(p + rest)), ToLower(p))
  {
    hide TrimRight, ToLower;
    assert (p + rest)[0] == p[0];
    TrimKeepsPrefix(p, rest);
    var t := TrimSpace(p + rest);
    assert t == p + t[|p|..];
    LowerPrefix(p, t[|p|..]);
  }

  /** The DMARC record always passes. */
  lemma DmarcValueMatches(s: Config)
    ensures DmarcMatches(DmarcValue(s))
  {
    hide TrimSpace;
    assert ToLower("v=DMARC1") == "v=dmarc1";
    hide ToLower;
    var v := DmarcValue(s);
    assert v[..8] == "v=DMARC1";
    assert v == "v=DMARC1" + v[8..];
    TrimmedLowerPrefix("v=DMARC1", v[8..]);
  }

  // ---- DKIM -----------------------------------------------------------------------------------

  /** The key text the record carries. */
  function KeyText(s: Config): string {
    if s.dkimPublicKey == "" then "<PUBLIC_KEY>" else s.dkimPublicKey
  }

  lemma {:induction false} SplitPrefix(p: string, rest: string, c: char)
    requires c !in p
    ensures Split(p + rest, c) == [p + Split(rest, c)[0]] + Split(rest, c)[1..]
  {
    if p == "" {
      var parts := Split(rest, c);
      assert p + rest == rest && p + parts[0] == parts[0];
      assert parts == [parts[0]] + parts[1..];
    } else {
      assert (p + rest)[1..] == p[1..] + rest;
      SplitPrefix(p[1..], rest, c);
      var first := Split(rest, c)[0];
      assert [p[0]] + (p[1..] + first) == p + first;
    }
  }

  lemma {:induction false} TrimRightAfter(p: string, x: string)
    requires p != "" && !IsSpace(p[|p| - 1])
    ensures TrimRight(p + x) == p + TrimRight(x)
    decreases |x|
  {
    if x == "" {
      assert p + x == p;
    } else {
      var n := |x| - 1;
      assert (p + x)[|p + x| - 1] == x[n];
      assert (p + x)[..|p + x| - 1] == p + x[..n];
      TrimRightAfter(p, x[..n]);
    }
  }

  lemma {:induction false} TrimLeftBlank(s: string)
    ensures TrimLeft(s) == "" <==> AllSpace(s)
  {
    if s != "" {
      TrimLeftBlank(s[1..]);
      assert AllSpace(s) <==> IsSpace(s[0]) && AllSpace(s[1..]);
    }
  }

  lemma {:induction false} TrimRightSplits(s: string)
    ensures s == TrimRight(s) + s[|TrimRight(s)|..] && AllSpace(s[|TrimRight(s)|..])
  {
    if s != "" && IsSpace(s[|s| - 1]) {
      var n := |s| - 1;
      TrimRightSplits(s[..n]);
      var k := |TrimRight(s[..n])|;
      assert s[k..] == s[..n][k..] + [s[n]];
    }
  }

  lemma TrimSpaceBlank(s: string)
    ensures TrimSpace(s) == "" <==> AllSpace(s)
  {
    TrimLeftBlank(s);
    TrimRightSplits(TrimLeft(s));
    var l := TrimLeft(s);
    assert l != "" ==> !IsSpace(l[0]);
  }

  /** The last part of the record is a key tag exactly when its value is not blank. */
  lemma KeyTagIff(x: string)
    ensures IsKeyTag(" p=" + x) <==> TrimSpace(x) != ""
  {
    var part := " p=" + x;
    assert part[1..] == "p=" + x;
    assert TrimLeft(part) == "p=" + x;
    TrimRightAfter("p=", x);
    var t := "p=" + TrimRight(x);
    assert TrimSpace(part) == t;
    assert OccursAt(t, "=", 1) && !OccursAt(t, "=", 0);
    IndexOfIs(t, "=", 1);
    assert t[..1] == "p" && t[2..] == TrimRight(x);
    assert EqualFold(TrimSpace("p"), "p");
    TrimSpaceBlank(x);
    TrimSpaceBlank(TrimRight(x));
    TrimRightSplits(x);
    assert AllSpace(TrimRight(x)) <==> AllSpace(x);
  }

  /** A tag under another one-letter name is no key tag. */
  lemma OtherTag(name: char, rest: string)
    requires !IsSpace(name) && name != '=' && LowerChar(name) != 'p' && rest != "" && !IsSpace(rest[|rest| - 1])
    ensures !IsKeyTag([name] + "=" + rest) && !IsKeyTag(" " + ([name] + "=" + rest))
  {
    hide IndexOf, ToLower;
    var t := [name] + "=" + rest;
    assert t[0] == name && t[|t| - 1] == rest[|rest| - 1];
    assert TrimSpace(t) == t;
    assert (" " + t)[1..] == t;
    assert TrimLeft(" " + t) == t;
    assert TrimSpace(" " + t) == t;
    assert OccursAt(t, "=", 1) && !OccursAt(t, "=", 0);
    IndexOfIs(t, "=", 1);
    assert t[..1] == [name] && TrimSpace([name]) == [name];
    assert ToLower([name])[0] != ToLower("p")[0];
  }

  lemma OtherTags()
    ensures !IsKeyTag("v=DKIM1") && !IsKeyTag(" k=rsa")
  {
    hide IsKeyTag;
    OtherTag('v', "DKIM1");
    OtherTag('k', "rsa");
    assert ['v'] + "=" + "DKIM1" == "v=DKIM1" && " " + (['k'] + "=" + "rsa") == " k=rsa";
  }

  lemma DkimParts(key: string)
    ensures Split("v=DKIM1; k=rsa; p=" + key, ';') ==
      ["v=DKIM1", " k=rsa", " p=" + Split(key, ';')[0]] + Split(key, ';')[1..]
  {
    hide Split;
    var tail := " p=" + key;
    assert "v=DKIM1; k=rsa; p=" + key == "v=DKIM1" + [';'] + (" k=rsa" + [';'] + tail);
    SplitLine("v=DKIM1", " k=rsa" + [';'] + tail, ';');
    SplitLine(" k=rsa", tail, ';');
    SplitPrefix(" p=", key, ';');
  }

  /** The generated record passes exactly when the key text before its first semicolon is not blank,
      or a later piece of it is itself a key tag. */
  lemma DkimValueMatches(s: Config)
    ensures DkimMatches(DkimValue(s)) <==>
      TrimSpace(Split(KeyText(s), ';')[0]) != "" || SomeKeyTag(Split(KeyText(s), ';')[1..])
  {
    hide IsKeyTag, Split, SomeKeyTag, DkimValue, KeyText, TrimSpace;
    var key := KeyText(s);
    DkimCarries(s);
    DkimAnnounced(key);
    DkimParts(key);
    var rest := Split(key, ';');
    OtherTags();
    KeyTagIff(rest[0]);
    KeyTagAmong("v=DKIM1", " k=rsa", " p=" + rest[0], rest[1..]);
  }

  lemma DkimCarries(s: Config)
    ensures DkimValue(s) == "v=DKIM1; k=rsa; p=" + KeyText(s)
  {
  }

  lemma KeyTagAmong(a: string, b: string, c: string, more: seq<string>)
    ensures SomeKeyTag([a, b, c] + more) <==> IsKeyTag(a) || IsKeyTag(b) || IsKeyTag(c) || SomeKeyTag(more)
  {
    hide IsKeyTag;
    var parts := [a, b, c] + more;
    assert parts[0] == a && parts[1] == b && parts[2] == c;
    assert forall i :: 0 <= i < |more| ==> parts[i + 3] == more[i];
    if SomeKeyTag(parts) {
      var i :| 0 <= i < |parts| && IsKeyTag(parts[i]);
      assert i > 2 ==> IsKeyTag(more[i - 3]);
    }
  }

  lemma DkimAnnounced(key: string)
    ensures Contains(ToLower(TrimSpace("v=DKIM1; k=rsa; p=" + key)), "v=dkim1")
  {
    var rest := "; k=rsa; p=" + key;
    assert "v=DKIM1; k=rsa; p=" + key == "v=DKIM1" + rest;
    assert ToLower("v=DKIM1") == "v=dkim1";
    hide TrimSpace, ToLower;
    TrimmedLowerPrefix("v=DKIM1", rest);
    assert OccursAt(ToLower(TrimSpace("v=DKIM1" + rest)), "v=dkim1", 0);
  }

  // ---- MX -------------------------------------------------------------------------------------

  predicate EndsInSpace(h: string) {
    h != "" && IsSpace(h[|h| - 1])
  }

  lemma {:induction false} TrimLeftDot(h: string)
    ensures TrimLeft(h + ".") == TrimLeft(h) + "."
  {
    if h == "" {
      assert h + "." == ".";
    } else {
      assert (h + ".")[0] == h[0] && (h + ".")[1..] == h[1..] + ".";
      TrimLeftDot(h[1..]);
    }
  }

  lemma {:induction false} TrimLeftIsSuffix(h: string)
    ensures |TrimLeft(h)| <= |h| && h[|h| - |TrimLeft(h)|..] == TrimLeft(h)
  {
    if h != "" && IsSpace(h[0]) {
      TrimLeftIsSuffix(h[1..]);
    }
  }

  /** A host given without its dot comes back as itself, left-trimmed and lower-cased. */
  lemma PublishedHost(h: string)
    requires !HasSuffix(h, ".")
    ensures NormalizeHost(EnsureTrailingDot(h)) == ToLower(TrimLeft(h))
  {
    var l := TrimLeft(h);
    TrimLeftDot(h);
    assert TrimSpace(h + ".") == l + "." by {
      assert (l + ".")[|l|] == '.';
    }
    LowerConcat(l, ".");
    assert ToLower(l + ".") == ToLower(l) + ".";
  }

  lemma CountsAgree(target: string, spaces: string, w: string, x: char)
    requires target + "." + spaces == w + ("." + target)
    ensures multiset(w)[x] == multiset(spaces)[x]
  {
    var host := target + "." + spaces;
    assert multiset(host)[x] == multiset(target)[x] + multiset(".")[x] + multiset(spaces)[x];
    assert multiset(w + ("." + target))[x] == multiset(w)[x] + (multiset(".")[x] + multiset(target)[x]);
  }

  /** A word is not its own suffix after a dot, once spaces have been cut from its end. */
  lemma NoDotSuffix(target: string, spaces: string)
    requires AllSpace(spaces) && spaces != "" && !IsSpace((target + "." + spaces)[0])
    ensures !HasSuffix(target + "." + spaces, "." + target)
  {
    var host := target + "." + spaces;
    var w := host[..|spaces|];
    assert w[0] == host[0] && w[0] in w && host[0] !in spaces;
    if HasSuffix(host, "." + target) {
      assert host == w + ("." + target);
      CountsAgree(target, spaces, w, w[0]);
    }
  }

  /** A name followed by spaces does not point at the name. */
  lemma SpacesMiss(low: string, spaces: string)
    requires low != "" && !IsSpace(low[0]) && !IsSpace(low[|low| - 1]) && AllSpace(spaces) && spaces != ""
    ensures !PointsAt(low + spaces, TrimDot(low))
  {
    var host := low + spaces;
    assert host[|host| - 1] == spaces[|spaces| - 1] && host[0] == low[0];
    if HasSuffix(low, ".") {
      assert low == TrimDot(low) + ".";
      NoDotSuffix(TrimDot(low), spaces);
    } else {
      assert ("." + low)[|low|] == low[|low| - 1];
      if HasSuffix(host, "." + low) {
        SuffixLast(host, "." + low);
      }
    }
  }

  /** Both forms of a host that ends in a space: what was published, and what is looked for. */
  lemma TrailingSpaceMisses(h: string)
    requires EndsInSpace(h) && TrimSpace(h) != ""
    ensures !PointsAt(ToLower(TrimLeft(h)), NormalizeHost(h))
  {
    hide TrimLeft, TrimRight, PointsAt, TrimDot, ToLower;
    var l := TrimLeft(h);
    TrimLeftIsSuffix(h);
    TrimRightSplits(l);
    var t, spaces := TrimRight(l), l[|TrimRight(l)|..];
    assert t == TrimSpace(h) && l[|l| - 1] == h[|h| - 1];
    assert spaces != "";
    LowerConcat(t, spaces);
    LowerSpaces(spaces);
    assert ToLower(t)[0] == LowerChar(t[0]) && ToLower(t)[|t| - 1] == LowerChar(t[|t| - 1]);
    SpacesMiss(ToLower(t), spaces);
  }

  lemma SuffixLast(s: string, p: string)
    requires p != "" && HasSuffix(s, p)
    ensures s[|s| - 1] == p[|p| - 1]
  {
    assert s[|s| - |p|..][|p| - 1] == s[|s| - 1];
  }

  lemma LowerSpaces(spaces: string)
    requires AllSpace(spaces)
    ensures ToLower(spaces) == spaces
  {
  }

  /** The published MX record passes exactly when the configured host is not empty and has no
      whitespace after it, or is nothing but whitespace. */
  lemma MxValueMatches(s: Config)
    requires s.mailHost != ""
    ensures MxMatches(s, EnsureTrailingDot(s.mailHost)) <==> !EndsInSpace(s.mailHost) || TrimSpace(s.mailHost) == ""
  {
    var h := s.mailHost;
    assert HasSuffix(h, ".") ==> h[|h| - 1] == '.';
    if !HasSuffix(h, ".") {
      PublishedHost(h);
      if EndsInSpace(h) && TrimSpace(h) != "" {
        TrailingSpaceMisses(h);
      } else {
        PlainHost(h);
      }
    }
  }

  lemma PlainHost(h: string)
    requires h != "" && !HasSuffix(h, ".") && (!EndsInSpace(h) || TrimSpace(h) == "")
    ensures NormalizeHost(h) == ToLower(TrimLeft(h))
  {
    hide TrimLeft, TrimRight, ToLower, HasSuffix;
    TrimSpaceBlank(h);
    TrimLeftBlank(h);
    TrimLeftIsSuffix(h);
    var l := TrimLeft(h);
    if l != "" {
      assert l[|l| - 1] == h[|h| - 1];
      DotSuffix(h);
      assert TrimSpace(h) == l;
      assert ToLower(l)[|l| - 1] == LowerChar(l[|l| - 1]);
      DotSuffix(ToLower(l));
    } else {
      assert ToLower(l) == "";
      NoDotInNothing();
    }
  }

  lemma DotSuffix(h: string)
    requires h != ""
    ensures HasSuffix(h, ".") <==> h[|h| - 1] == '.'
  {
    assert h[|h| - 1..] == [h[|h| - 1]];
  }

  lemma NoDotInNothing()
    ensures !HasSuffix("", ".")
  {
  }

  // ---- Publishing what was generated ------------------------------------------------------------

  predicate Base64Char(c: char) {
    'A' <= c <= 'Z' || 'a' <= c <= 'z' || '0' <= c <= '9' || c == '+' || c == '/' || c == '='
  }

  predicate Base64(key: string) {
    forall i :: 0 <= i < |key| ==> Base64Char(key[i])
  }

  /** Each check, against a zone that holds exactly the generated records. */
  predicate MxVerified(s: Config, domain: string) {
    var hosts := ValuesAt(Generated(s, domain), MX, domain);
    exists v :: v in hosts && MxMatches(s, v)
  }

  predicate SpfVerified(s: Config, domain: string) {
    var txts := ValuesAt(Generated(s, domain), TXT, domain);
    exists v :: v in txts && SpfMatches(s, v)
  }

  predicate DkimVerified(s: Config, domain: string) {
    var txts := ValuesAt(Generated(s, domain), TXT, s.dkimSelector + "._domainkey." + domain);
    exists v :: v in txts && DkimMatches(v)
  }

  predicate DmarcVerified(s: Config, domain: string) {
    var txts := ValuesAt(Generated(s, domain), TXT, "_dmarc." + domain);
    exists v :: v in txts && DmarcMatches(v)
  }

  lemma MxVerifiedIff(s: Config, domain: string)
    requires domain != ""
    ensures MxVerified(s, domain) <==> s.mailHost != "" && (!EndsInSpace(s.mailHost) || TrimSpace(s.mailHost) == "")
  {
    hide Generated, EnsureTrailingDot, TrimSpace, PointsAt;
    if s.mailHost != "" {
      MxValues(s, domain);
      MxValueMatches(s);
      assert ValuesAt(Generated(s, domain), MX, domain)[0] == EnsureTrailingDot(s.mailHost);
    }
  }

  lemma SpfVerifiedIff(s: Config, domain: string)
    requires domain != ""
    ensures SpfVerified(s, domain) <==> s.spfInclude != ""
  {
    if s.spfInclude != "" {
      hide Generated, SpfValue, ToLower;
      SpfPublished(s, domain);
      SpfValueMatches(s);
    }
  }

  lemma DkimVerifiedIff(s: Config, domain: string)
    requires domain != ""
    ensures DkimVerified(s, domain) <==>
      TrimSpace(Split(KeyText(s), ';')[0]) != "" || SomeKeyTag(Split(KeyText(s), ';')[1..])
  {
    hide Generated, DkimMatches, Split, TrimSpace, SomeKeyTag;
    DkimValues(s, domain);
    DkimValueMatches(s);
    assert ValuesAt(Generated(s, domain), TXT, s.dkimSelector + "._domainkey." + domain)[0] == DkimValue(s);
  }

  lemma DmarcAlwaysVerified(s: Config, domain: string)
    requires domain != ""
    ensures DmarcVerified(s, domain)
  {
    hide Generated, DmarcMatches, DmarcValue;
    DmarcPublished(s, domain);
    DmarcValueMatches(s);
  }

  /** A host without surrounding whitespace, an SPF include and a base64 or absent key make every
      check succeed on every domain. */
  lemma PublishedRecordsVerify(cfg: Config, domain: string)
    requires domain != "" && cfg.mailHost != "" && TrimSpace(cfg.mailHost) == cfg.mailHost
    requires cfg.spfInclude != "" && Base64(cfg.dkimPublicKey)
    ensures var s := NewService(cfg);
      MxVerified(s, domain) && SpfVerified(s, domain) && DkimVerified(s, domain) && DmarcVerified(s, domain)
  {
    hide MxVerified, SpfVerified, DkimVerified, DmarcVerified, Split, TrimSpace, SomeKeyTag;
    var s := NewService(cfg);
    MxVerifiedIff(s, domain);
    SpfVerifiedIff(s, domain);
    DkimVerifiedIff(s, domain);
    DmarcAlwaysVerified(s, domain);
    KeyIsWhole(s);
  }

  /** A zone that holds exactly the records. */
  function Zone(records: seq<Record>): Resolver {
    (kind, name) => Found(ValuesAt(records, kind, name))
  }

  /** Generates the records, publishes exactly them and verifies the domain: each flag is its exact
      condition on the configuration, on every domain. */
  method VerifyPublished(cfg: Config, domain: string) returns (r: Outcome<Verification>)
    ensures r.Err? <==> domain == ""
    ensures r.Ok? ==> var s := NewService(cfg);
      && (r.value.mx <==> s.mailHost != "" && (!EndsInSpace(s.mailHost) || TrimSpace(s.mailHost) == ""))
      && (r.value.spf <==> s.spfInclude != "")
      && (r.value.dkim <==> TrimSpace(Split(KeyText(s), ';')[0]) != "" || SomeKeyTag(Split(KeyText(s), ';')[1..]))
      && r.value.dmarc && r.value.verified == (r.value.mx && r.value.spf && r.value.dkim)
  {
    hide MxMatches, SpfMatches, DkimMatches, DmarcMatches, Split, TrimSpace, SomeKeyTag, KeyText, EndsInSpace;
    hide Generated, ValuesAt;
    var s := NewService(cfg);
    var records := GenerateRecords(s, domain);
    if domain != "" {
      MxVerifiedIff(s, domain);
      SpfVerifiedIff(s, domain);
      DkimVerifiedIff(s, domain);
      DmarcAlwaysVerified(s, domain);
    }
    assert !SomeLookupFails(s, domain, Zone(records));
    r := VerifyDomain(s, domain, Zone(records));
    if r.Err? {
      TwoErrors(r.error);
    }
  }

  lemma KeyIsWhole(s: Config)
    requires Base64(s.dkimPublicKey)
    ensures TrimSpace(Split(KeyText(s), ';')[0]) != ""
  {
    hide Split, TrimSpace;
    var key := KeyText(s);
    assert ';' !in key;
    assert !IsSpace(key[0]);
    SplitNone(key, ';');
    TrimSpaceBlank(key);
  }

  /** Trailing whitespace in the configured host is enough to fail, on every domain. */
  lemma TrailingSpaceFails(domain: string)
    requires domain != ""
    ensures !MxVerified(Config("mx.example ", "", "kmail", "", "none", "", "", ""), domain)
  {
    var h := "mx.example ";
    assert h[10] == ' ' && h[0] == 'm';
    TrimSpaceBlank(h);
    MxVerifiedIff(Config(h, "", "kmail", "", "none", "", "", ""), domain);
  }
}
