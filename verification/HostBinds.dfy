/** The same-domain bind of a transfer server's host to its anchor's domain. URL
    parsing and the recognition of IP addresses belong to other libraries and are
    inputs. */
module HostBinds {
  import opened Common
  import opened Text

  const MAX_HOME_DOMAIN_BYTES: nat := 255
  const MAX_LABEL_BYTES: nat := 63

  /** What the URL parser made of the text. */
  datatype ParsedUrl = NotAUrl | Url(scheme: string, host: Option<string>)

  datatype AnchorError =
    | InvalidDirectUrl
    | InvalidAnchorDomain
    | TransferServerHostMismatch(domain: string, host: string)

  // ------------------------------------------------------------------- the validator

  predicate Lowercase(c: char) {
    'a' <= c <= 'z'
  }

  predicate AsciiDigit(c: char) {
    '0' <= c <= '9'
  }

  predicate LdhChars(s: string) {
    forall i :: 0 <= i < |s| ==> Lowercase(s[i]) || AsciiDigit(s[i]) || s[i] == '-' || s[i] == '.'
  }

  predicate LdhLabel(part: string) {
    part != "" && |part| <= MAX_LABEL_BYTES && part[0] != '-' && part[|part| - 1] != '-'
  }

  predicate ValidLdhHomeDomain(s: string) {
    && s != "" && |s| <= MAX_HOME_DOMAIN_BYTES && LdhChars(s)
    && s[0] != '.' && s[0] != '-' && s[|s| - 1] != '.' && s[|s| - 1] != '-'
    && forall i :: 0 <= i < |Split(s, '.')| ==> LdhLabel(Split(s, '.')[i])
  }

  predicate AllDigits(part: string) {
    part != "" && forall i :: 0 <= i < |part| ==> AsciiDigit(part[i])
  }

  function NonEmpty(labels: seq<string>): nat {
    if labels == [] then 0 else (if labels[0] != "" then 1 else 0) + NonEmpty(labels[1..])
  }

  predicate ValidPublicFqdn(host: string, isIp: string -> bool) {
    && !isIp(host)
    && !(forall i :: 0 <= i < |Split(host, '.')| ==> AllDigits(Split(host, '.')[i]))
    && NonEmpty(Split(host, '.')) >= 2
    && ValidLdhHomeDomain(host)
  }

  // ------------------------------------------------------------------------ the bind

  function StripDot(host: string): string {
    if host != "" && host[|host| - 1] == '.' then host[..|host| - 1] else host
  }

  predicate SameOrSubdomain(host: string, domain: string) {
    host == domain || EndsWith(host, "." + domain)
  }

  function AssertSameDomain(url: ParsedUrl, domain: Option<string>, isIp: string -> bool): Result<(), AnchorError> {
    if url.NotAUrl? || url.scheme != "https" || url.host.None? then Err(InvalidDirectUrl)
    else
      var host := StripDot(url.host.value);
      match domain
      case Some(d) =>
        if !ValidPublicFqdn(d, isIp) then Err(InvalidAnchorDomain)
        else if !SameOrSubdomain(host, d) then Err(TransferServerHostMismatch(d, host))
        else Ok(())
      case None => if ValidPublicFqdn(host, isIp) then Ok(()) else Err(InvalidDirectUrl)
  }

  // -------------------------------------------------------------------------- labels

  ghost predicate IsSuffix(s: seq<string>, of: seq<string>) {
    |s| <= |of| && of[|of| - |s|..] == s
  }

  /** Text ending in a dot and the domain ends in the domain's labels. */
  lemma SubdomainEndsInLabels(prefix: string, domain: string)
    ensures IsSuffix(Split(domain, '.'), Split(prefix + "." + domain, '.'))
  {
    SplitAround(prefix, domain, '.');
    var labels := Split(prefix, '.') + Split(domain, '.');
    assert labels[|labels| - |Split(domain, '.')|..] == Split(domain, '.');
  }

  lemma {:induction false} JoinConcat(a: seq<string>, b: seq<string>)
    requires a != [] && b != []
    ensures Join(a + b, ".") == Join(a, ".") + "." + Join(b, ".")
  {
    if |a| == 1 {
      assert (a + b)[1..] == b;
    } else {
      assert (a + b)[1..] == a[1..] + b;
      JoinConcat(a[1..], b);
      assert Join(a, ".") == a[0] + "." + Join(a[1..], ".");
    }
  }

  lemma EndsWithTail(a: string, b: string)
    ensures EndsWith(a + b, b)
  {
  }

  lemma DottedEnds(a: string, b: string)
    ensures EndsWith(a + "." + b, "." + b)
  {
    assert a + "." + b == a + ("." + b);
    EndsWithTail(a, "." + b);
  }

  lemma LabelSuffixBinds(host: string, domain: string)
    requires IsSuffix(Split(domain, '.'), Split(host, '.'))
    ensures SameOrSubdomain(host, domain)
  {
    JoinSplit(host, '.');
    JoinSplit(domain, '.');
    JoinedSuffix(Split(host, '.'), Split(domain, '.'));
  }

  lemma JoinedSuffix(h: seq<string>, d: seq<string>)
    requires IsSuffix(d, h) && d != []
    ensures SameOrSubdomain(Join(h, "."), Join(d, "."))
  {
    var front := h[..|h| - |d|];
    assert h == front + d;
    if front == [] {
      assert h == d;
    } else {
      JoinConcat(front, d);
      DottedEnds(Join(front, "."), Join(d, "."));
    }
  }

  lemma SuffixTransitive(h: seq<string>, m: seq<string>, d: seq<string>)
    requires IsSuffix(m, h) && IsSuffix(d, m)
    ensures IsSuffix(d, h)
  {
    assert h[|h| - |d|..] == m[|m| - |d|..];
  }

  lemma SuffixesNest(h: seq<string>, p: seq<string>, q: seq<string>)
    requires IsSuffix(p, h) && IsSuffix(q, h) && |p| <= |q|
    ensures IsSuffix(p, q)
  {
    assert q[|q| - |p|..] == h[|h| - |p|..];
  }

  /** For all texts: the test by suffix of the text is the test by suffix of the
      labels. */
  lemma BindIsLabelSuffix(host: string, domain: string)
    ensures SameOrSubdomain(host, domain) <==> IsSuffix(Split(domain, '.'), Split(host, '.'))
  {
    if host == domain {
      assert Split(host, '.')[0..] == Split(host, '.');
    } else if SameOrSubdomain(host, domain) {
      var prefix := host[..|host| - |domain| - 1];
      assert host == prefix + "." + domain by {
        assert host[|host| - |domain| - 1..] == "." + domain;
      }
      SubdomainEndsInLabels(prefix, domain);
    }
    if IsSuffix(Split(domain, '.'), Split(host, '.')) {
      LabelSuffixBinds(host, domain);
    }
  }

  /** A subdomain of a subdomain is a subdomain. */
  lemma BindIsTransitive(host: string, middle: string, domain: string)
    requires SameOrSubdomain(host, middle) && SameOrSubdomain(middle, domain)
    ensures SameOrSubdomain(host, domain)
  {
    BindIsLabelSuffix(host, middle);
    BindIsLabelSuffix(middle, domain);
    BindIsLabelSuffix(host, domain);
    SuffixTransitive(Split(host, '.'), Split(middle, '.'), Split(domain, '.'));
  }

  /** Two domains that both bind a host are one below the other. */
  lemma BindsAreNested(host: string, a: string, b: string)
    requires SameOrSubdomain(host, a) && SameOrSubdomain(host, b)
    ensures SameOrSubdomain(a, b) || SameOrSubdomain(b, a)
  {
    BindIsLabelSuffix(host, a);
    BindIsLabelSuffix(host, b);
    BindIsLabelSuffix(a, b);
    BindIsLabelSuffix(b, a);
    if |Split(a, '.')| <= |Split(b, '.')| {
      SuffixesNest(Split(host, '.'), Split(a, '.'), Split(b, '.'));
    } else {
      SuffixesNest(Split(host, '.'), Split(b, '.'), Split(a, '.'));
    }
  }

  // ------------------------------------------------------------------- public names

  /** One to 63 lowercase letters, digits and inner hyphens. */
  ghost predicate PublicLabel(part: string) {
    && 1 <= |part| <= 63
    && forall i :: 0 <= i < |part| ==>
         'a' <= part[i] <= 'z' || '0' <= part[i] <= '9' || (part[i] == '-' && 0 < i < |part| - 1)
  }

  ghost predicate AllPublic(labels: seq<string>) {
    forall i :: 0 <= i < |labels| ==> PublicLabel(labels[i])
  }

  ghost predicate HasNonDigit(part: string) {
    exists i :: 0 <= i < |part| && !('0' <= part[i] <= '9')
  }

  /** At most 255 characters and no IP address; at least two labels, every one a public
      label and some not a number. */
  ghost predicate PublicName(host: string, isIp: string -> bool) {
    var labels := Split(host, '.');
    && !isIp(host) && |host| <= 255 && |labels| >= 2
    && AllPublic(labels)
    && exists i :: 0 <= i < |labels| && HasNonDigit(labels[i])
  }

  lemma LdhConcat(a: string, b: string)
    ensures LdhChars(a + b) <==> LdhChars(a) && LdhChars(b)
  {
    var all := a + b;
    assert forall i :: 0 <= i < |a| ==> all[i] == a[i];
    assert forall i :: 0 <= i < |b| ==> all[i + |a|] == b[i];
    assert forall i :: |a| <= i < |all| ==> all[i] == b[i - |a|];
  }

  ghost predicate AllLdh(parts: seq<string>) {
    forall i :: 0 <= i < |parts| ==> LdhChars(parts[i])
  }

  /** The characters of the pieces and the dots between them are those of the text. */
  lemma {:induction false} PiecesHoldTheText(parts: seq<string>)
    ensures LdhChars(Join(parts, ".")) <==> AllLdh(parts)
  {
    if |parts| > 1 {
      var rest := parts[1..];
      PiecesHoldTheText(rest);
      LdhConcat(parts[0] + ".", Join(rest, "."));
      LdhConcat(parts[0], ".");
      assert LdhChars(".");
      assert forall i :: 0 < i < |parts| ==> parts[i] == rest[i - 1];
      assert AllLdh(parts) <==> LdhChars(parts[0]) && AllLdh(rest) by {
        assert forall i :: 0 <= i < |rest| ==> rest[i] == parts[i + 1];
      }
    }
  }

  /** The ends of the text are the ends of its outer pieces. */
  lemma {:induction false} EndsOfPieces(s: string)
    requires s != ""
    ensures var parts := Split(s, '.');
            && (s[0] == '.' <==> parts[0] == "") && (parts[0] != "" ==> parts[0][0] == s[0])
            && (s[|s| - 1] == '.' <==> parts[|parts| - 1] == "")
            && (parts[|parts| - 1] != "" ==> parts[|parts| - 1][|parts[|parts| - 1]| - 1] == s[|s| - 1])
  {
    if |s| > 1 {
      EndsOfPieces(s[1..]);
    } else {
      assert s[1..] == "";
    }
  }

  lemma {:induction false} AllNonEmpty(labels: seq<string>)
    ensures NonEmpty(labels) <= |labels|
    ensures NonEmpty(labels) == |labels| <==> forall i :: 0 <= i < |labels| ==> labels[i] != ""
  {
    if labels != [] {
      AllNonEmpty(labels[1..]);
      assert forall i :: 0 < i < |labels| ==> labels[i] == labels[1..][i - 1];
    }
  }

  lemma LabelIsPublic(part: string)
    requires '.' !in part
    ensures LdhLabel(part) && LdhChars(part) <==> PublicLabel(part)
  {
    if LdhLabel(part) && LdhChars(part) {
      forall i | 0 <= i < |part|
        ensures 'a' <= part[i] <= 'z' || '0' <= part[i] <= '9' || (part[i] == '-' && 0 < i < |part| - 1)
      {
        assert part[i] in part;
      }
    }
  }

  lemma LdhGivesPublic(host: string)
    requires ValidLdhHomeDomain(host)
    ensures AllPublic(Split(host, '.'))
  {
    var labels := Split(host, '.');
    JoinSplit(host, '.');
    PiecesHoldTheText(labels);
    forall i | 0 <= i < |labels| ensures PublicLabel(labels[i]) {
      LabelIsPublic(labels[i]);
    }
  }

  lemma PublicGivesLdh(host: string)
    requires |host| <= 255 && AllPublic(Split(host, '.'))
    ensures ValidLdhHomeDomain(host)
  {
    var labels := Split(host, '.');
    JoinSplit(host, '.');
    PiecesHoldTheText(labels);
    forall i | 0 <= i < |labels| ensures LdhLabel(labels[i]) && LdhChars(labels[i]) {
      assert PublicLabel(labels[i]);
      LabelIsPublic(labels[i]);
    }
    assert PublicLabel(labels[0]) && PublicLabel(labels[|labels| - 1]);
    EndsOfPieces(host);
  }

  /** The syntax check is about length and labels alone. */
  lemma LdhIsPublicLabels(host: string)
    ensures ValidLdhHomeDomain(host) <==> |host| <= 255 && AllPublic(Split(host, '.'))
  {
    if ValidLdhHomeDomain(host) {
      LdhGivesPublic(host);
    } else if |host| <= 255 && AllPublic(Split(host, '.')) {
      PublicGivesLdh(host);
    }
  }

  lemma NumbersOnly(labels: seq<string>)
    requires AllPublic(labels)
    ensures (forall i :: 0 <= i < |labels| ==> AllDigits(labels[i])) <==> !exists i :: 0 <= i < |labels| && HasNonDigit(labels[i])
  {
    forall i | 0 <= i < |labels| ensures AllDigits(labels[i]) <==> !HasNonDigit(labels[i]) {
      assert PublicLabel(labels[i]);
    }
  }

  /** The validator accepts exactly the public names. */
  lemma ValidatorIsPublicName(host: string, isIp: string -> bool)
    ensures ValidPublicFqdn(host, isIp) <==> PublicName(host, isIp)
  {
    var labels := Split(host, '.');
    LdhIsPublicLabels(host);
    AllNonEmpty(labels);
    if AllPublic(labels) {
      NumbersOnly(labels);
      assert forall i :: 0 <= i < |labels| ==> labels[i] != "" by {
        assert forall i :: 0 <= i < |labels| ==> PublicLabel(labels[i]);
      }
    }
  }

  /** The host is `text`, or `text` with one trailing dot. */
  ghost predicate Names(host: string, text: string) {
    if host != "" && host[|host| - 1] == '.' then host == text + "." else host == text
  }

  /** What the whole check answers for an anchor domain: it accepts an https URL whose
      host, without one trailing dot, has the labels of a public name as its last; so the
      host has at least two. And which error it gives otherwise. */
  lemma AcceptedHostIsUnderDomain(url: ParsedUrl, domain: string, isIp: string -> bool, text: string)
    requires url.Url? && url.host.Some? ==> Names(url.host.value, text)
    ensures var r, named := AssertSameDomain(url, Some(domain), isIp), url.Url? && url.scheme == "https" && url.host.Some?;
            && (r.Ok? <==> named && PublicName(domain, isIp) && IsSuffix(Split(domain, '.'), Split(text, '.')))
            && (r.Ok? ==> |Split(text, '.')| >= 2)
            && (r == Err(InvalidDirectUrl) <==> !named)
            && (r == Err(InvalidAnchorDomain) <==> named && !PublicName(domain, isIp))
            && (r.Err? && r.error.TransferServerHostMismatch? ==> r.error == TransferServerHostMismatch(domain, text))
  {
    BindIsLabelSuffix(text, domain);
    ValidatorIsPublicName(domain, isIp);
    if url.Url? && url.host.Some? {
      StripDotNames(url.host.value, text);
    }
  }

  /** And without an anchor domain: exactly an https URL whose host is a public name. */
  lemma DirectUrlIsPublicName(url: ParsedUrl, isIp: string -> bool, text: string)
    requires url.Url? && url.host.Some? ==> Names(url.host.value, text)
    ensures AssertSameDomain(url, None, isIp)
         == if url.Url? && url.scheme == "https" && url.host.Some? && PublicName(text, isIp) then Ok(()) else Err(InvalidDirectUrl)
  {
    ValidatorIsPublicName(text, isIp);
    if url.Url? && url.host.Some? {
      StripDotNames(url.host.value, text);
    }
  }

  lemma StripDotNames(host: string, text: string)
    requires Names(host, text)
    ensures StripDot(host) == text
  {
    if host != "" && host[|host| - 1] == '.' {
      assert (text + ".")[..|text|] == text;
    }
  }
}
