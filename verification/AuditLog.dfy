/** Writing the activity log (`apps/accounts/utils.py`): who did what to which
    target, and from which client address when a request is at hand. */
module AuditLog {
  import opened Base
  import opened Text
  import opened AccountModels
  import opened AppointmentModels

  /** An HTTP request, reduced to its user and its `META` headers. */
  datatype Request = Request(user: User, meta: map<string, string>)

  /** What `log_action` is handed: a request, or a user object (possibly `None`). */
  datatype Origin = ByRequest(request: Request) | ByUser(user: Option<User>)

  const FORWARDED_FOR: string := "HTTP_X_FORWARDED_FOR"
  const REMOTE_ADDR: string := "REMOTE_ADDR"

  /** `get_client_ip`: the first comma-separated entry of a non-empty
      `X-Forwarded-For` header, stripped of whitespace; otherwise the peer
      address, which may be missing. */
  function ClientIp(req: Request): (ip: Option<string>)
    ensures FORWARDED_FOR in req.meta && req.meta[FORWARDED_FOR] != "" ==>
              ip.Some? && ',' !in ip.value && ip.value == Strip(BeforeFirst(req.meta[FORWARDED_FOR], ','))
    ensures (FORWARDED_FOR !in req.meta || req.meta[FORWARDED_FOR] == "") ==>
              ip == (if REMOTE_ADDR in req.meta then Some(req.meta[REMOTE_ADDR]) else None)
  {
    if FORWARDED_FOR in req.meta && req.meta[FORWARDED_FOR] != "" then
      var first := BeforeFirst(req.meta[FORWARDED_FOR], ',');
      var ip := Strip(first);
      assert forall i :: 0 <= i < |ip| ==> ip[i] in first;
      Some(ip)
    else if REMOTE_ADDR in req.meta then Some(req.meta[REMOTE_ADDR])
    else None
  }

  /** The forwarded client address `h.split(',')[0].strip()` (what `ClientIp`
      returns for a non-empty header `h`) is a slice of `h` that ends at or
      before the first comma: every comma of `h` lies at or after the end of
      the first entry, which is at or after the end of the slice. */
  lemma FirstEntryIsTrimmedSlice(h: string)
    ensures TrimmedSliceBeforeComma(h, |BeforeFirst(h, ',')|, LeadingBlanks(BeforeFirst(h, ',')), Strip(BeforeFirst(h, ',')))
  {
    var first := BeforeFirst(h, ',');
    StripIsSlice(first);
    SliceBeforeComma(h, first, LeadingBlanks(first), Strip(first));
  }

  /** The forwarded address neither starts nor ends with whitespace. */
  lemma FirstEntryHasNoBlankEnds(h: string)
    ensures var ip := Strip(BeforeFirst(h, ','));
            ip == [] || (!IsSpace(ip[0]) && !IsSpace(ip[|ip| - 1]))
  {
  }

  /** `ip` is the slice of `h` starting at `k`, and every comma of `h` lies at
      or after `end`, which is at or after the end of the slice. */
  predicate TrimmedSliceBeforeComma(h: string, end: nat, k: nat, ip: string) {
    && k + |ip| <= |h| && ip == h[k..k + |ip|]
    && forall i :: 0 <= i < |h| && h[i] == ',' ==> k + |ip| <= end <= i
  }

  /** A slice `ip` of a comma-free prefix `first` of `h` is that slice of `h`,
      and every comma of `h` comes after both. */
  lemma SliceBeforeComma(h: string, first: string, k: nat, ip: string)
    requires |first| <= |h| && first == h[..|first|] && ',' !in first
    requires k + |ip| <= |first| && ip == first[k..k + |ip|]
    ensures TrimmedSliceBeforeComma(h, |first|, k, ip)
  {
    SliceOfPrefix(h, first, k, k + |ip|);
    CommaFreePrefix(h, first);
  }

  /** The stripped text is the slice of `s` after its leading blanks. */
  lemma StripIsSlice(s: string)
    ensures LeadingBlanks(s) + |Strip(s)| <= |s|
    ensures Strip(s) == s[LeadingBlanks(s)..LeadingBlanks(s) + |Strip(s)|]
  {
  }

  /** A slice of a prefix of `h` is the same slice of `h`. */
  lemma SliceOfPrefix(h: string, first: string, a: nat, b: nat)
    requires |first| <= |h| && first == h[..|first|] && a <= b <= |first|
    ensures first[a..b] == h[a..b]
  {
  }

  /** A comma-free prefix of `h` ends at or before every comma of `h`. */
  lemma CommaFreePrefix(h: string, first: string)
    requires |first| <= |h| && first == h[..|first|] && ',' !in first
    ensures forall i :: 0 <= i < |h| && h[i] == ',' ==> i >= |first|
  {
    forall i | 0 <= i < |first|
      ensures h[i] != ','
    {
      assert h[i] == first[i];
    }
  }

  /** `log_action`: the actor is recorded only when authenticated, the client
      address only when a request is given; everything else is stored as passed. */
  function LogAction(origin: Origin, action: string, targetType: string, targetId: Option<int>, description: string): (e: LogEntry)
    ensures e.action == action && e.targetType == targetType && e.targetId == targetId && e.description == description
    ensures origin.ByRequest? ==>
              e.user == (if origin.request.user.isAuthenticated then Some(origin.request.user.id) else None)
              && e.ipAddress == ClientIp(origin.request)
    ensures origin.ByUser? ==>
              e.ipAddress == None
              && e.user == (if origin.user.Some? && origin.user.value.isAuthenticated then Some(origin.user.value.id) else None)
  {
    match origin
    case ByRequest(req) =>
      var user := if req.user.isAuthenticated then Some(req.user.id) else None;
      LogEntry(user, action, targetType, targetId, description, ClientIp(req))
    case ByUser(u) =>
      var user := if u.Some? && u.value.isAuthenticated then Some(u.value.id) else None;
      LogEntry(user, action, targetType, targetId, description, None)
  }

  /** The description `log_patient_action` makes up when none is given: the
      action code with underscores turned to spaces, title-cased, then ": " and
      the patient's name. */
  function DefaultPatientDescription(action: string, patient: Patient): (d: string)
    ensures |d| == |action| + 2 + |patient.fullName|
    ensures d[|action|..|action| + 2] == ": " && d[|action| + 2..] == patient.fullName
    ensures forall i :: 0 <= i < |action| ==> (d[i] == ' ' <==> action[i] == '_' || action[i] == ' ')
    ensures forall i :: 0 <= i < |action| ==> d[i] == TitleChar(ReplaceChar(action, '_', ' '), i)
  {
    Title(ReplaceChar(action, '_', ' ')) + ": " + patient.fullName
  }

  /** For a snake-case action code (lower-case ASCII letters and underscores),
      the default description starts with the code itself, readable back: a
      letter is capitalised exactly when it starts a word of the code, and
      lower-casing the prefix and turning its spaces back into underscores
      gives the code. */
  lemma DefaultDescriptionRecoversAction(action: string, patient: Patient)
    requires forall i :: 0 <= i < |action| ==> action[i] == '_' || IsLowerAscii(action[i])
    ensures var d := DefaultPatientDescription(action, patient);
            forall i :: 0 <= i < |action| ==>
              && (if d[i] == ' ' then '_' else ToLower(d[i])) == action[i]
              && (IsUpperAscii(d[i]) <==> IsLowerAscii(action[i]) && (i == 0 || action[i - 1] == '_'))
  {
    var d := DefaultPatientDescription(action, patient);
    forall i | 0 <= i < |action|
      ensures (if d[i] == ' ' then '_' else ToLower(d[i])) == action[i]
      ensures IsUpperAscii(d[i]) <==> IsLowerAscii(action[i]) && (i == 0 || action[i - 1] == '_')
    {
      TitleCharOfSnake(action, i);
    }
  }

  /** One position of the title-cased, space-separated snake-case code. */
  lemma TitleCharOfSnake(action: string, i: nat)
    requires forall j :: 0 <= j < |action| ==> action[j] == '_' || IsLowerAscii(action[j])
    requires i < |action|
    ensures var c := TitleChar(ReplaceChar(action, '_', ' '), i);
            && (if c == ' ' then '_' else ToLower(c)) == action[i]
            && (IsUpperAscii(c) <==> IsLowerAscii(action[i]) && (i == 0 || action[i - 1] == '_'))
  {
    var spaced := ReplaceChar(action, '_', ' ');
    assert spaced[i] == (if action[i] == '_' then ' ' else action[i]);
    if i > 0 {
      assert spaced[i - 1] == (if action[i - 1] == '_' then ' ' else action[i - 1]);
    }
    if action[i] != '_' {
      CaseRoundTrip(action[i]);
    }
  }

  /** Upper-casing a lower-case ASCII letter gives an upper-case letter that
      lower-cases back to it. */
  lemma CaseRoundTrip(c: char)
    requires IsLowerAscii(c)
    ensures IsUpperAscii(ToUpper(c)) && ToLower(ToUpper(c)) == c
  {
  }

  /** `log_patient_action`: logs against the patient, keeping an explicit
      description and making one up only for an empty one. */
  function LogPatientAction(req: Request, action: string, patient: Patient, description: string): (e: LogEntry)
    ensures e.targetType == "patient" && e.targetId == Some(patient.id as int) && e.action == action
    ensures description != "" ==> e.description == description
    ensures description == "" ==> e.description == DefaultPatientDescription(action, patient)
    ensures e.ipAddress == ClientIp(req)
    ensures e.user == (if req.user.isAuthenticated then Some(req.user.id) else None)
  {
    var d := if description == "" then DefaultPatientDescription(action, patient) else description;
    LogAction(ByRequest(req), action, "patient", Some(patient.id as int), d)
  }

  /** Logging through a request and logging through that request's user record
      the same entry, except that only the request supplies a client address. */
  lemma RequestAndUserOriginsAgree(req: Request, action: string, targetType: string, targetId: Option<int>, description: string)
    ensures LogAction(ByRequest(req), action, targetType, targetId, description)
            == LogAction(ByUser(Some(req.user)), action, targetType, targetId, description).(ipAddress := ClientIp(req))
  {
  }

  /** Leaving the description empty is the same as passing the default one,
      and any explicit description changes only the description field. */
  lemma PatientDescriptionDefaulting(req: Request, action: string, patient: Patient, description: string)
    ensures LogPatientAction(req, action, patient, "") == LogPatientAction(req, action, patient, DefaultPatientDescription(action, patient))
    ensures description != "" ==>
              LogPatientAction(req, action, patient, description) == LogPatientAction(req, action, patient, "").(description := description)
  {
  }
}
