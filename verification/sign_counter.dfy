/** The authenticator's signature counter: serialized sign requests, and a store that only ever raises it. */
module SignCounter {
  import opened Common

  /** `signCount` as `Number(...) || 0` reads it. */
  datatype Credential = Credential(rpId: string, credentialId: string, signCount: int, transport: string)

  /** Base64 text to bytes; None when it is no base64. */
  type Decoder = string -> Option<bytes>

  const RP_ID := "duosecurity.com"

  /** `rpId` and `allow` as the page sent them; `signs` tells whether the key can produce an assertion. */
  datatype Request = Request(rpId: string, allow: seq<string>, signs: bool)

  datatype Response = Signed(credentialId: string, signCount: int) | Declined | Thrown

  function ForRp(creds: seq<Credential>, rpId: string): seq<Credential> {
    if creds == [] then [] else (if creds[0].rpId == rpId then [creds[0]] else []) + ForRp(creds[1..], rpId)
  }

  lemma {:induction false} ForRpHas(creds: seq<Credential>, rpId: string, c: Credential)
    ensures c in ForRp(creds, rpId) <==> c in creds && c.rpId == rpId
  {
    if creds != [] {
      ForRpHas(creds[1..], rpId, c);
    }
  }

  predicate Decodes(ids: seq<string>, decode: Decoder) { forall i :: 0 <= i < |ids| ==> decode(ids[i]).Some? }

  function Ids(creds: seq<Credential>): (r: seq<string>)
    ensures |r| == |creds| && forall i :: 0 <= i < |r| ==> r[i] == creds[i].credentialId
  {
    seq(|creds|, i requires 0 <= i < |creds| => creds[i].credentialId)
  }

  /** The list names this credential: by bytes, not by spelling. */
  predicate Listed(c: Credential, allow: seq<string>, decode: Decoder) {
    exists i :: 0 <= i < |allow| && decode(allow[i]) == decode(c.credentialId)
  }

  function Matching(creds: seq<Credential>, allow: seq<string>, decode: Decoder): seq<Credential> {
    if creds == [] then []
    else (if Listed(creds[0], allow, decode) then [creds[0]] else []) + Matching(creds[1..], allow, decode)
  }

  lemma {:induction false} MatchingHas(creds: seq<Credential>, allow: seq<string>, decode: Decoder, c: Credential)
    ensures c in Matching(creds, allow, decode) <==> c in creds && Listed(c, allow, decode)
  {
    if creds != [] {
      MatchingHas(creds[1..], allow, decode, c);
    }
  }

  /** First of this transport, else the first. */
  function Prefer(creds: seq<Credential>, transport: string): (r: Option<Credential>)
    ensures r.None? <==> creds == []
    ensures r.Some? ==> r.value in creds
  {
    if creds == [] then None
    else if creds[0].transport == transport then Some(creds[0])
    else
      var rest := Prefer(creds[1..], transport);
      if rest.Some? && rest.value.transport == transport then rest else Some(creds[0])
  }

  lemma {:induction false} PreferBest(creds: seq<Credential>, transport: string, c: Credential)
    requires c in creds && c.transport == transport
    ensures Prefer(creds, transport).Some? && Prefer(creds, transport).value.transport == transport
  {
    if creds[0].transport != transport {
      PreferBest(creds[1..], transport, c);
    }
  }

  /** A credential that may answer: of this party, and on the list if there is one. */
  predicate Answers(c: Credential, rpId: string, allow: seq<string>, decode: Decoder) {
    c.rpId == rpId && (allow != [] ==> Listed(c, allow, decode))
  }

  datatype Pick = Picked(cred: Credential) | NoMatch | BadBase64

  function PickCredential(creds: seq<Credential>, rpId: string, allow: seq<string>, decode: Decoder): (p: Pick)
    ensures p.Picked? ==> p.cred in creds && Answers(p.cred, rpId, allow, decode)
  {
    var forRp := ForRp(creds, rpId);
    if forRp == [] then NoMatch
    else if allow != [] then
      if !Decodes(allow, decode) || !Decodes(Ids(forRp), decode) then BadBase64
      else
        var best := Prefer(Matching(forRp, allow, decode), "internal");
        if best.None? then NoMatch
        else
          MatchingHas(forRp, allow, decode, best.value);
          ForRpHas(creds, rpId, best.value);
          Picked(best.value)
    else
      var open := Prefer(forRp, "usb").value;
      ForRpHas(creds, rpId, open);
      Picked(open)
  }

  /** Security keys for an open request, platform keys for a list. */
  function Preferred(allow: seq<string>): string { if allow == [] then "usb" else "internal" }

  predicate Undecodable(creds: seq<Credential>, rpId: string, allow: seq<string>, decode: Decoder) {
    !Decodes(allow, decode) || exists c :: c in creds && c.rpId == rpId && decode(c.credentialId).None?
  }

  /** If a credential answers there is a pick, of the preferred transport if that one is. */
  lemma PickIsBest(creds: seq<Credential>, rpId: string, allow: seq<string>, decode: Decoder, c: Credential)
    requires c in creds && Answers(c, rpId, allow, decode)
    ensures var p := PickCredential(creds, rpId, allow, decode);
      && !p.NoMatch?
      && (p.Picked? && c.transport == Preferred(allow) ==> p.cred.transport == Preferred(allow))
  {
    var forRp := ForRp(creds, rpId);
    ForRpHas(creds, rpId, c);
    MatchingHas(forRp, allow, decode, c);
    if c.transport == Preferred(allow) {
      PreferBest(if allow == [] then forRp else Matching(forRp, allow, decode), Preferred(allow), c);
    }
  }

  /** A list fails the request exactly if the party has a credential and the list, or a stored id of the party, is no
      base64. */
  lemma BadBase64Means(creds: seq<Credential>, rpId: string, allow: seq<string>, decode: Decoder)
    ensures PickCredential(creds, rpId, allow, decode).BadBase64?
       <==> allow != [] && (exists c :: c in creds && c.rpId == rpId) && Undecodable(creds, rpId, allow, decode)
  {
    var forRp := ForRp(creds, rpId);
    forall c
      ensures c in forRp <==> c in creds && c.rpId == rpId
    {
      ForRpHas(creds, rpId, c);
    }
    if forRp != [] {
      assert forRp[0] in forRp;
    }
    if c :| c in forRp && decode(c.credentialId).None? {
      var i :| 0 <= i < |forRp| && forRp[i] == c;
      assert decode(Ids(forRp)[i]).None?;
    }
    if i :| 0 <= i < |forRp| && decode(Ids(forRp)[i]).None? {
      assert forRp[i] in forRp;
    }
  }

  // ---- The pick by fields ----

  predicate MayAnswer(c: Credential, rpId: string, allow: seq<string>, decode: Decoder) {
    c.rpId == rpId && (allow == [] || exists i :: 0 <= i < |allow| && decode(allow[i]) == decode(c.credentialId))
  }

  /** Stored before all others that may answer, or, if it is of the transport, before all others of it; of another
      transport only if none that may answer is of this one. */
  ghost predicate IsFirstBest(creds: seq<Credential>, rpId: string, allow: seq<string>, decode: Decoder,
                              transport: string, c: Credential) {
    exists k :: 0 <= k < |creds| && creds[k] == c && MayAnswer(c, rpId, allow, decode)
      && forall j :: 0 <= j < |creds| && MayAnswer(creds[j], rpId, allow, decode) ==>
           && (creds[j].transport == transport ==> c.transport == transport)
           && (j < k ==> creds[j].transport != transport && c.transport == transport)
  }

  function Answering(creds: seq<Credential>, rpId: string, allow: seq<string>, decode: Decoder): seq<Credential> {
    if allow == [] then ForRp(creds, rpId) else Matching(ForRp(creds, rpId), allow, decode)
  }

  lemma AnsweringHead(creds: seq<Credential>, rpId: string, allow: seq<string>, decode: Decoder)
    requires creds != []
    ensures Answering(creds, rpId, allow, decode)
         == Under(MayAnswer(creds[0], rpId, allow, decode), creds[0], Answering(creds[1..], rpId, allow, decode))
  {
    var rest := ForRp(creds[1..], rpId);
    if creds[0].rpId == rpId {
      assert ForRp(creds, rpId) == [creds[0]] + rest;
      assert ([creds[0]] + rest)[1..] == rest;
    } else {
      assert ForRp(creds, rpId) == rest;
    }
  }

  lemma FirstBestHead(creds: seq<Credential>, rpId: string, allow: seq<string>, decode: Decoder, transport: string,
                      rest: seq<Credential>)
    requires creds != [] && MayAnswer(creds[0], rpId, allow, decode)
    requires forall c :: c in rest <==> c in creds[1..] && MayAnswer(c, rpId, allow, decode)
    requires creds[0].transport == transport || !Finds(rest, transport)
    ensures IsFirstBest(creds, rpId, allow, decode, transport, creds[0])
  {
    forall j | 0 < j < |creds| && MayAnswer(creds[j], rpId, allow, decode) && creds[j].transport == transport
      ensures creds[0].transport == transport
    {
      assert creds[1..][j - 1] == creds[j];
      PreferBest(rest, transport, creds[j]);
    }
    assert creds[0] == creds[0];
  }

  lemma FirstBestLater(creds: seq<Credential>, rpId: string, allow: seq<string>, decode: Decoder, transport: string,
                       c: Credential)
    requires creds != [] && IsFirstBest(creds[1..], rpId, allow, decode, transport, c)
    requires MayAnswer(creds[0], rpId, allow, decode) ==> creds[0].transport != transport && c.transport == transport
    ensures IsFirstBest(creds, rpId, allow, decode, transport, c)
  {
    var k :| 0 <= k < |creds[1..]| && creds[1..][k] == c
      && forall j :: 0 <= j < |creds[1..]| && MayAnswer(creds[1..][j], rpId, allow, decode) ==>
           && (creds[1..][j].transport == transport ==> c.transport == transport)
           && (j < k ==> creds[1..][j].transport != transport && c.transport == transport);
    assert creds[k + 1] == c;
    forall j | 0 <= j < |creds| && MayAnswer(creds[j], rpId, allow, decode)
      ensures creds[j].transport == transport ==> c.transport == transport
      ensures j < k + 1 ==> creds[j].transport != transport && c.transport == transport
    {
      assert j > 0 ==> creds[1..][j - 1] == creds[j];
    }
  }

  lemma AnsweringHas(creds: seq<Credential>, rpId: string, allow: seq<string>, decode: Decoder)
    ensures forall c :: c in Answering(creds, rpId, allow, decode) <==> c in creds && MayAnswer(c, rpId, allow, decode)
  {
    forall c
      ensures c in Answering(creds, rpId, allow, decode) <==> c in creds && MayAnswer(c, rpId, allow, decode)
    {
      ForRpHas(creds, rpId, c);
      MatchingHas(ForRp(creds, rpId), allow, decode, c);
    }
  }

  lemma {:induction false} PreferIsFirstBest(creds: seq<Credential>, rpId: string, allow: seq<string>,
                                             decode: Decoder, transport: string)
    requires Answering(creds, rpId, allow, decode) != []
    ensures IsFirstBest(creds, rpId, allow, decode, transport,
                        Prefer(Answering(creds, rpId, allow, decode), transport).value)
    decreases |creds|
  {
    var rest := Answering(creds[1..], rpId, allow, decode);
    AnsweringHead(creds, rpId, allow, decode);
    AnsweringHas(creds[1..], rpId, allow, decode);
    PreferHead(creds[0], rest, transport);
    if rest != [] {
      PreferIsFirstBest(creds[1..], rpId, allow, decode, transport);
    }
    if MayAnswer(creds[0], rpId, allow, decode) && (creds[0].transport == transport || !Finds(rest, transport)) {
      FirstBestHead(creds, rpId, allow, decode, transport, rest);
    } else {
      FirstBestLater(creds, rpId, allow, decode, transport, Prefer(rest, transport).value);
    }
  }

  /** Main result: which credential answers. Without a list the first one stored on a security key, or else the first;
      with one the first listed one of the platform, or else the first listed. */
  lemma PickIsFirstBest(creds: seq<Credential>, rpId: string, allow: seq<string>, decode: Decoder)
    ensures var p := PickCredential(creds, rpId, allow, decode);
      && (p.Picked? ==>
            IsFirstBest(creds, rpId, allow, decode, if allow == [] then "usb" else "internal", p.cred))
      && (p.NoMatch? ==> forall c :: c in creds ==> !MayAnswer(c, rpId, allow, decode))
  {
    AnsweringHas(creds, rpId, allow, decode);
    if PickCredential(creds, rpId, allow, decode).Picked? {
      PreferIsFirstBest(creds, rpId, allow, decode, if allow == [] then "usb" else "internal");
    } else if ForRp(creds, rpId) == [] {
      forall c | c in creds
        ensures c.rpId != rpId
      {
        ForRpHas(creds, rpId, c);
      }
    }
  }

  function RaisedOne(c: Credential, id: string, count: int): Credential {
    if c.credentialId == id && count > c.signCount then c.(signCount := count) else c
  }

  /** Raise the counter of every credential of this id, never lower it. */
  function Raised(creds: seq<Credential>, id: string, count: int): (r: seq<Credential>)
    ensures |r| == |creds| && forall i :: 0 <= i < |r| ==> r[i] == RaisedOne(creds[i], id, count)
  {
    seq(|creds|, i requires 0 <= i < |creds| => RaisedOne(creds[i], id, count))
  }

  /** The counters of this id that were behind are there now; nothing else is touched. */
  predicate IsRaised(a: seq<Credential>, b: seq<Credential>, id: string, count: int) {
    |b| == |a| && forall i :: 0 <= i < |a| ==>
      && b[i].rpId == a[i].rpId && b[i].credentialId == a[i].credentialId && b[i].transport == a[i].transport
      && b[i].signCount == if a[i].credentialId == id && a[i].signCount < count then count else a[i].signCount
  }

  // ---- Runs ----

  /** What a run has returned so far, oldest first. */
  datatype Returned = Returned(credentialId: string, signCount: int)

  datatype World = World(creds: seq<Credential>, returned: seq<Returned>)

  /** Sign requests wait for one another; enrolling adds a credential with an id of its own, counter zero. */
  datatype Event = Sign(req: Request) | Enroll(cred: Credential)

  predicate Enabled(w: World, ev: Event) {
    ev.Enroll? ==>
      && (forall i :: 0 <= i < |w.returned| ==> w.returned[i].credentialId != ev.cred.credentialId)
      && (forall i :: 0 <= i < |w.creds| ==> w.creds[i].credentialId != ev.cred.credentialId)
  }

  /** The pick for a request; a store without credentials and a foreign party get none. */
  function PickFor(creds: seq<Credential>, req: Request, decode: Decoder): (p: Pick)
    ensures p.Picked? ==> p.cred in creds
  {
    var rpId := if req.rpId == "" then RP_ID else req.rpId;
    if creds == [] || rpId != RP_ID then NoMatch else PickCredential(creds, rpId, req.allow, decode)
  }

  /** `enabled` and the packaged import aside, `handleSign`: advance and persist, then answer. */
  function Signs(creds: seq<Credential>, req: Request, decode: Decoder): (seq<Credential>, Response) {
    AnswerWith(creds, PickFor(creds, req, decode), req.signs)
  }

  function AnswerWith(creds: seq<Credential>, p: Pick, signs: bool): (seq<Credential>, Response) {
    match p
    case NoMatch => (creds, Declined)
    case BadBase64 => (creds, Thrown)
    case Picked(c) =>
      (Raised(creds, c.credentialId, c.signCount + 1),
        if signs then Signed(c.credentialId, c.signCount + 1) else Thrown)
  }

  function Apply(w: World, ev: Event, decode: Decoder): World {
    match ev
    case Enroll(c) => w.(creds := w.creds + [c.(signCount := 0)])
    case Sign(req) => Settle(w, Signs(w.creds, req, decode))
  }

  function Settle(w: World, answer: (seq<Credential>, Response)): World {
    World(answer.0,
      if answer.1.Signed? then w.returned + [Returned(answer.1.credentialId, answer.1.signCount)] else w.returned)
  }

  predicate Legal(w: World, events: seq<Event>, decode: Decoder)
    decreases |events|
  {
    events != [] ==> Enabled(w, events[0]) && Legal(Apply(w, events[0], decode), events[1..], decode)
  }

  function Run(w: World, events: seq<Event>, decode: Decoder): World
    decreases |events|
  {
    if events == [] then w else Run(Apply(w, events[0], decode), events[1..], decode)
  }

  /** An enrolment is of an id neither stored nor returned before, and adds it with the counter at zero. */
  lemma EnrollDoes(w: World, c: Credential, decode: Decoder)
    ensures Enabled(w, Enroll(c)) <==>
      && (forall x :: x in w.creds ==> x.credentialId != c.credentialId)
      && (forall r :: r in w.returned ==> r.credentialId != c.credentialId)
    ensures var w' := Apply(w, Enroll(c), decode);
      && w'.returned == w.returned
      && w'.creds == w.creds + [Credential(c.rpId, c.credentialId, 0, c.transport)]
  {
  }

  /** No stored counter is below one already returned for its id. */
  predicate NeverBehind(w: World) {
    forall i, k :: 0 <= i < |w.creds| && 0 <= k < |w.returned| && w.creds[i].credentialId == w.returned[k].credentialId
      ==> w.creds[i].signCount >= w.returned[k].signCount
  }

  predicate Increasing(returned: seq<Returned>) {
    forall i, j :: 0 <= i < j < |returned| && returned[i].credentialId == returned[j].credentialId
      ==> returned[i].signCount < returned[j].signCount
  }

  lemma {:induction false} StepKeeps(w: World, ev: Event, decode: Decoder)
    requires Enabled(w, ev) && NeverBehind(w) && Increasing(w.returned)
    ensures NeverBehind(Apply(w, ev, decode)) && Increasing(Apply(w, ev, decode).returned)
  {
    match ev {
      case Enroll(c) => EnrollKeeps(w, c);
      case Sign(req) =>
        AnswerKeeps(w, PickFor(w.creds, req, decode), req.signs);
    }
  }

  lemma EnrollKeeps(w: World, c: Credential)
    requires Enabled(w, Enroll(c)) && NeverBehind(w)
    ensures NeverBehind(w.(creds := w.creds + [c.(signCount := 0)]))
  {
  }

  lemma AnswerKeeps(w: World, p: Pick, signs: bool)
    requires NeverBehind(w) && Increasing(w.returned) && (p.Picked? ==> p.cred in w.creds)
    ensures NeverBehind(Settle(w, AnswerWith(w.creds, p, signs)))
    ensures Increasing(Settle(w, AnswerWith(w.creds, p, signs)).returned)
  {
    if p.Picked? {
      PickedKeeps(w, p.cred, signs);
    }
  }

  lemma PickedKeeps(w: World, c: Credential, signs: bool)
    requires NeverBehind(w) && Increasing(w.returned) && c in w.creds
    ensures var w' := World(Raised(w.creds, c.credentialId, c.signCount + 1),
                            if signs then w.returned + [Returned(c.credentialId, c.signCount + 1)] else w.returned);
      NeverBehind(w') && Increasing(w'.returned)
  {
    var i :| 0 <= i < |w.creds| && w.creds[i] == c;
    forall k | 0 <= k < |w.returned| && w.returned[k].credentialId == c.credentialId
      ensures w.returned[k].signCount <= c.signCount
    {
      assert w.creds[i].credentialId == w.returned[k].credentialId;
    }
  }

  /** Main result: over every run, the counters returned for a credential id strictly increase, and what is stored
      is never behind what was returned, even when storage holds several credentials of that id. */
  lemma {:induction false} CountersIncrease(w: World, events: seq<Event>, decode: Decoder)
    requires Legal(w, events, decode) && NeverBehind(w) && Increasing(w.returned)
    ensures NeverBehind(Run(w, events, decode)) && Increasing(Run(w, events, decode).returned)
    decreases |events|
  {
    if events != [] {
      StepKeeps(w, events[0], decode);
      CountersIncrease(Apply(w, events[0], decode), events[1..], decode);
    }
  }

  // ---- Identity by bytes ----

  /** What a relying party sees: ids as bytes. */
  predicate IncreasingByBytes(returned: seq<Returned>, decode: Decoder) {
    forall i, j :: 0 <= i < j < |returned| && decode(returned[i].credentialId) == decode(returned[j].credentialId)
      ==> returned[i].signCount < returned[j].signCount
  }

  /** The credential a site gets when it sends no list, and the one it gets when it lists that credential's id,
      carry the same text. */
  predicate SpelledAlike(creds: seq<Credential>, decode: Decoder) {
    var open := PickCredential(creds, RP_ID, [], decode);
    open.Picked? ==>
      var listed := PickCredential(creds, RP_ID, [open.cred.credentialId], decode);
      listed.Picked? ==> listed.cred.credentialId == open.cred.credentialId
  }

  // Picks look at everything but the counters.

  ghost predicate KeepsRest(f: Credential -> Credential) { forall c :: f(c).(signCount := c.signCount) == c }

  function Recounted(creds: seq<Credential>, f: Credential -> Credential): (r: seq<Credential>)
    ensures |r| == |creds| && forall i :: 0 <= i < |r| ==> r[i] == f(creds[i])
  {
    seq(|creds|, i requires 0 <= i < |creds| => f(creds[i]))
  }

  lemma {:induction false} RecountedForRp(creds: seq<Credential>, f: Credential -> Credential, rpId: string)
    requires KeepsRest(f)
    ensures ForRp(Recounted(creds, f), rpId) == Recounted(ForRp(creds, rpId), f)
  {
    if creds != [] {
      assert Recounted(creds, f)[1..] == Recounted(creds[1..], f);
      RecountedForRp(creds[1..], f, rpId);
    }
  }

  lemma {:induction false} RecountedMatching(creds: seq<Credential>, f: Credential -> Credential, allow: seq<string>,
                                             decode: Decoder)
    requires KeepsRest(f)
    ensures Matching(Recounted(creds, f), allow, decode) == Recounted(Matching(creds, allow, decode), f)
  {
    if creds != [] {
      assert Recounted(creds, f)[1..] == Recounted(creds[1..], f);
      assert Listed(f(creds[0]), allow, decode) == Listed(creds[0], allow, decode);
      RecountedMatching(creds[1..], f, allow, decode);
    }
  }

  lemma {:induction false} RecountedPrefer(creds: seq<Credential>, f: Credential -> Credential, transport: string)
    requires KeepsRest(f)
    ensures Prefer(Recounted(creds, f), transport)
         == if Prefer(creds, transport).None? then None else Some(f(Prefer(creds, transport).value))
  {
    if creds != [] {
      assert Recounted(creds, f)[1..] == Recounted(creds[1..], f);
      RecountedPrefer(creds[1..], f, transport);
    }
  }

  lemma RecountedPick(creds: seq<Credential>, f: Credential -> Credential, rpId: string, allow: seq<string>,
                      decode: Decoder)
    requires KeepsRest(f)
    ensures PickCredential(Recounted(creds, f), rpId, allow, decode)
         == var p := PickCredential(creds, rpId, allow, decode); if p.Picked? then Picked(f(p.cred)) else p
  {
    RecountedForRp(creds, f, rpId);
    if allow == [] {
      RecountedPrefer(ForRp(creds, rpId), f, "usb");
    } else {
      RecountedListed(ForRp(creds, rpId), f, allow, decode);
    }
  }

  lemma RecountedListed(forRp: seq<Credential>, f: Credential -> Credential, allow: seq<string>, decode: Decoder)
    requires KeepsRest(f)
    ensures Ids(Recounted(forRp, f)) == Ids(forRp)
    ensures var best := Prefer(Matching(forRp, allow, decode), "internal");
      Prefer(Matching(Recounted(forRp, f), allow, decode), "internal")
        == if best.None? then None else Some(f(best.value))
  {
    RecountedMatching(forRp, f, allow, decode);
    RecountedPrefer(Matching(forRp, allow, decode), f, "internal");
  }

  function Bare(creds: seq<Credential>): seq<Credential> { Recounted(creds, (c: Credential) => c.(signCount := 0)) }

  lemma BarePick(creds: seq<Credential>, allow: seq<string>, decode: Decoder)
    ensures PickCredential(Bare(creds), RP_ID, allow, decode)
         == var p := PickCredential(creds, RP_ID, allow, decode);
            if p.Picked? then Picked(p.cred.(signCount := 0)) else p
  {
    RecountedPick(creds, (c: Credential) => c.(signCount := 0), RP_ID, allow, decode);
  }

  lemma RaisedPick(creds: seq<Credential>, id: string, count: int, allow: seq<string>, decode: Decoder)
    ensures PickCredential(Raised(creds, id, count), RP_ID, allow, decode)
         == var p := PickCredential(creds, RP_ID, allow, decode);
            if p.Picked? then Picked(RaisedOne(p.cred, id, count)) else p
  {
    var f := (c: Credential) => RaisedOne(c, id, count);
    RecountedPick(creds, f, RP_ID, allow, decode);
    assert Raised(creds, id, count) == Recounted(creds, f);
  }

  // A list only narrows: what it names by bytes decides.

  function Own(p: Credential): seq<string> { [p.credentialId] }

  lemma OwnIsNarrower(c: Credential, p: Credential, wide: seq<string>, decode: Decoder)
    requires Listed(p, wide, decode) && Listed(c, Own(p), decode)
    ensures Listed(c, wide, decode)
  {
    var i :| 0 <= i < |wide| && decode(wide[i]) == decode(p.credentialId);
    assert decode(wide[i]) == decode(c.credentialId);
  }

  predicate Finds(creds: seq<Credential>, transport: string) {
    Prefer(creds, transport).Some? && Prefer(creds, transport).value.transport == transport
  }

  lemma OwnFinds(creds: seq<Credential>, transport: string, wide: seq<string>, p: Credential, decode: Decoder)
    requires Listed(p, wide, decode) && Finds(Matching(creds, Own(p), decode), transport)
    ensures Finds(Matching(creds, wide, decode), transport)
  {
    var best := Prefer(Matching(creds, Own(p), decode), transport).value;
    MatchingHas(creds, Own(p), decode, best);
    OwnIsNarrower(best, p, wide, decode);
    MatchingHas(creds, wide, decode, best);
    PreferBest(Matching(creds, wide, decode), transport, best);
  }

  lemma {:induction false} PreferNarrow(creds: seq<Credential>, transport: string, wide: seq<string>, p: Credential,
                                        decode: Decoder)
    requires Listed(p, wide, decode) && Listed(p, Own(p), decode)
    requires Prefer(Matching(creds, wide, decode), transport) == Some(p)
    ensures Prefer(Matching(creds, Own(p), decode), transport) == Some(p)
  {
    var c, most, fewer := creds[0], Matching(creds[1..], wide, decode), Matching(creds[1..], Own(p), decode);
    if Prefer(most, transport) == Some(p) {
      PreferNarrow(creds[1..], transport, wide, p, decode);
    }
    if Listed(c, Own(p), decode) {
      OwnIsNarrower(c, p, wide, decode);
    }
    if Finds(fewer, transport) {
      OwnFinds(creds[1..], transport, wide, p, decode);
    }
    MatchingHead(creds, wide, decode);
    MatchingHead(creds, Own(p), decode);
    NarrowStep(c, most, fewer, transport, p, Listed(c, wide, decode), Listed(c, Own(p), decode));
  }

  function Under(head: bool, c: Credential, rest: seq<Credential>): seq<Credential> {
    if head then [c] + rest else rest
  }

  lemma MatchingHead(creds: seq<Credential>, allow: seq<string>, decode: Decoder)
    requires creds != []
    ensures Matching(creds, allow, decode)
      == Under(Listed(creds[0], allow, decode), creds[0], Matching(creds[1..], allow, decode))
  {
  }

  lemma NarrowStep(c: Credential, most: seq<Credential>, fewer: seq<Credential>, transport: string, p: Credential,
                   inWide: bool, inNarrow: bool)
    requires (inNarrow ==> inWide) && (p == c ==> inNarrow)
    requires Prefer(Under(inWide, c, most), transport) == Some(p)
    requires Prefer(most, transport) == Some(p) ==> Prefer(fewer, transport) == Some(p)
    requires Finds(fewer, transport) ==> Finds(most, transport)
    ensures Prefer(Under(inNarrow, c, fewer), transport) == Some(p)
  {
    PreferHead(c, most, transport);
    PreferHead(c, fewer, transport);
  }

  lemma PreferHead(c: Credential, rest: seq<Credential>, transport: string)
    ensures Prefer([c] + rest, transport)
         == if c.transport != transport && Finds(rest, transport) then Prefer(rest, transport) else Some(c)
  {
    assert ([c] + rest)[1..] == rest;
  }

  lemma ListedPickByItself(creds: seq<Credential>, allow: seq<string>, decode: Decoder, p: Credential)
    requires allow != [] && PickCredential(creds, RP_ID, allow, decode) == Picked(p)
    ensures PickCredential(creds, RP_ID, Own(p), decode) == Picked(p)
  {
    var forRp, own := ForRp(creds, RP_ID), Own(p);
    MatchingHas(forRp, allow, decode, p);
    var i :| 0 <= i < |forRp| && forRp[i] == p;
    assert Ids(forRp)[i] == p.credentialId;
    assert decode(own[0]) == decode(p.credentialId);
    PreferNarrow(forRp, "internal", allow, p, decode);
  }

  lemma {:induction false} MatchingByBytes(creds: seq<Credential>, x: string, y: string, decode: Decoder)
    requires decode(x) == decode(y)
    ensures Matching(creds, [x], decode) == Matching(creds, [y], decode)
  {
    if creds != [] {
      assert decode([x][0]) == decode([y][0]);
      MatchingByBytes(creds[1..], x, y, decode);
    }
  }

  lemma PickByBytes(creds: seq<Credential>, x: string, y: string, decode: Decoder)
    requires decode(x) == decode(y)
    ensures PickCredential(creds, RP_ID, [x], decode) == PickCredential(creds, RP_ID, [y], decode)
  {
    MatchingByBytes(ForRp(creds, RP_ID), x, y, decode);
    assert Decodes([x], decode) <==> decode([x][0]).Some?;
    assert Decodes([y], decode) <==> decode([y][0]).Some?;
  }

  predicate PicksId(creds: seq<Credential>, allow: seq<string>, id: string, decode: Decoder) {
    var p := PickCredential(creds, RP_ID, allow, decode);
    p.Picked? && p.cred.credentialId == id
  }

  lemma PicksAgree(creds: seq<Credential>, allow: seq<string>, allow': seq<string>, x: string, y: string,
                   decode: Decoder)
    requires SpelledAlike(creds, decode) && decode(x) == decode(y)
    requires PicksId(creds, allow, x, decode) && PicksId(creds, allow', y, decode)
    ensures x == y
  {
    if allow != [] {
      ListedPickByItself(creds, allow, decode, PickCredential(creds, RP_ID, allow, decode).cred);
    }
    if allow' != [] {
      ListedPickByItself(creds, allow', decode, PickCredential(creds, RP_ID, allow', decode).cred);
    }
    PickByBytes(creds, x, y, decode);
  }

  // Runs of sign requests.

  predicate SignsOnly(events: seq<Event>) { forall i :: 0 <= i < |events| ==> events[i].Sign? }

  /** Every id returned is one that some request picks from these credentials. */
  ghost predicate AllPicked(base: seq<Credential>, returned: seq<Returned>, decode: Decoder) {
    forall k :: 0 <= k < |returned| ==> IsPicked(base, returned[k].credentialId, decode)
  }

  ghost predicate IsPicked(base: seq<Credential>, id: string, decode: Decoder) {
    exists allow: seq<string> :: PicksId(base, allow, id, decode)
  }

  lemma SignPicks(w: World, req: Request, base: seq<Credential>, decode: Decoder)
    requires Bare(w.creds) == base && AllPicked(base, w.returned, decode)
    ensures Bare(Apply(w, Sign(req), decode).creds) == base
    ensures AllPicked(base, Apply(w, Sign(req), decode).returned, decode)
  {
    var p := PickFor(w.creds, req, decode);
    if p.Picked? {
      PickOfBase(w.creds, req, p.cred, decode);
    }
    AnswerPicks(w, p, req.signs, base, decode);
  }

  lemma PickOfBase(creds: seq<Credential>, req: Request, c: Credential, decode: Decoder)
    requires PickFor(creds, req, decode) == Picked(c)
    ensures PicksId(Bare(creds), req.allow, c.credentialId, decode)
  {
    BarePick(creds, req.allow, decode);
  }

  lemma AnswerPicks(w: World, p: Pick, signs: bool, base: seq<Credential>, decode: Decoder)
    requires Bare(w.creds) == base && AllPicked(base, w.returned, decode)
    requires p.Picked? ==> IsPicked(base, p.cred.credentialId, decode)
    ensures Bare(Settle(w, AnswerWith(w.creds, p, signs)).creds) == base
    ensures AllPicked(base, Settle(w, AnswerWith(w.creds, p, signs)).returned, decode)
  {
    if p.Picked? {
      RaisedBare(w.creds, p.cred.credentialId, p.cred.signCount + 1);
    }
  }

  lemma RaisedBare(creds: seq<Credential>, id: string, count: int)
    ensures Bare(Raised(creds, id, count)) == Bare(creds)
  {
  }

  lemma {:induction false} RunPicks(w: World, events: seq<Event>, base: seq<Credential>, decode: Decoder)
    requires SignsOnly(events) && Bare(w.creds) == base && AllPicked(base, w.returned, decode)
    ensures Legal(w, events, decode) && AllPicked(base, Run(w, events, decode).returned, decode)
    decreases |events|
  {
    if events != [] {
      assert events[0].Sign?;
      SignPicks(w, events[0].req, base, decode);
      RunPicks(Apply(w, events[0], decode), events[1..], base, decode);
    }
  }

  lemma AlikeIncreases(creds: seq<Credential>, events: seq<Event>, decode: Decoder)
    requires SpelledAlike(creds, decode) && SignsOnly(events)
    ensures IncreasingByBytes(Run(World(creds, []), events, decode).returned, decode)
  {
    var w, base := World(creds, []), Bare(creds);
    RunPicks(w, events, base, decode);
    CountersIncrease(w, events, decode);
    BareAlike(creds, decode);
    var returned := Run(w, events, decode).returned;
    forall i, j | 0 <= i < j < |returned| && decode(returned[i].credentialId) == decode(returned[j].credentialId)
      ensures returned[i].signCount < returned[j].signCount
    {
      var a: seq<string> :| PicksId(base, a, returned[i].credentialId, decode);
      var b: seq<string> :| PicksId(base, b, returned[j].credentialId, decode);
      PicksAgree(base, a, b, returned[i].credentialId, returned[j].credentialId, decode);
    }
  }

  lemma BareAlike(creds: seq<Credential>, decode: Decoder)
    ensures SpelledAlike(Bare(creds), decode) <==> SpelledAlike(creds, decode)
  {
    BarePick(creds, [], decode);
    var open := PickCredential(creds, RP_ID, [], decode);
    if open.Picked? {
      BarePick(creds, [open.cred.credentialId], decode);
    }
  }

  /** Two requests answered by credentials of different ids: the first answer leaves the second's counter alone. */
  lemma TwoSigns(creds: seq<Credential>, allow: seq<string>, allow': seq<string>, p: Credential, q: Credential,
                 decode: Decoder)
    requires PickCredential(creds, RP_ID, allow, decode) == Picked(p)
      && PickCredential(creds, RP_ID, allow', decode) == Picked(q)
    requires p.credentialId != q.credentialId
    ensures var events := [Sign(Request(RP_ID, allow, true)), Sign(Request(RP_ID, allow', true))];
      Run(World(creds, []), events, decode).returned
        == [Returned(p.credentialId, p.signCount + 1), Returned(q.credentialId, q.signCount + 1)]
  {
    var a, b := Sign(Request(RP_ID, allow, true)), Sign(Request(RP_ID, allow', true));
    var w, mid := World(creds, []),
      World(Raised(creds, p.credentialId, p.signCount + 1), [Returned(p.credentialId, p.signCount + 1)]);
    RaisedPick(creds, p.credentialId, p.signCount + 1, allow', decode);
    SignPicked(w, a.req, p, decode);
    SignPicked(mid, b.req, q, decode);
    TwoSteps(w, a, b, decode);
  }

  lemma SignPicked(w: World, req: Request, c: Credential, decode: Decoder)
    requires req.rpId == RP_ID && req.signs && PickCredential(w.creds, RP_ID, req.allow, decode) == Picked(c)
    ensures Apply(w, Sign(req), decode)
         == World(Raised(w.creds, c.credentialId, c.signCount + 1),
           w.returned + [Returned(c.credentialId, c.signCount + 1)])
  {
    assert c in w.creds;
    assert PickFor(w.creds, req, decode) == Picked(c);
  }

  /** Main result: what a site sees increases in every run of sign requests exactly when the credential picked without a
      list, and the one picked when its id is listed, are spelled alike. */
  lemma BytesIncreaseExactly(creds: seq<Credential>, decode: Decoder)
    ensures SpelledAlike(creds, decode)
       <==> forall events :: SignsOnly(events) ==>
         IncreasingByBytes(Run(World(creds, []), events, decode).returned, decode)
  {
    if SpelledAlike(creds, decode) {
      forall events | SignsOnly(events)
        ensures IncreasingByBytes(Run(World(creds, []), events, decode).returned, decode)
      {
        AlikeIncreases(creds, events, decode);
      }
    } else {
      var events := NotAlikeRepeats(creds, decode);
      assert SignsOnly(events);
    }
  }

  lemma NotAlikeRepeats(creds: seq<Credential>, decode: Decoder) returns (events: seq<Event>)
    requires !SpelledAlike(creds, decode)
    ensures SignsOnly(events) && !IncreasingByBytes(Run(World(creds, []), events, decode).returned, decode)
  {
    var u := PickCredential(creds, RP_ID, [], decode).cred;
    var own := [u.credentialId];
    var v := PickCredential(creds, RP_ID, own, decode).cred;
    assert Listed(v, own, decode) && decode(v.credentialId) == decode(u.credentialId);
    if v.signCount <= u.signCount {
      events := [Sign(Request(RP_ID, [], true)), Sign(Request(RP_ID, own, true))];
      TwoSigns(creds, [], own, u, v, decode);
    } else {
      events := [Sign(Request(RP_ID, own, true)), Sign(Request(RP_ID, [], true))];
      TwoSigns(creds, own, [], v, u, decode);
    }
    ghost var returned := Run(World(creds, []), events, decode).returned;
    assert decode(returned[0].credentialId) == decode(returned[1].credentialId);
  }

  const PLATFORM := Credential(RP_ID, "-w", 7, "internal")
  const SECURITY_KEY := Credential(RP_ID, "+w", 7, "usb")
  const LISTED := Request(RP_ID, ["-w"], true)
  const OPEN := Request(RP_ID, [], true)

  /** The picker compares bytes, the store compares text: two spellings of one id keep two counters, so the same
      value can be returned twice. */
  lemma TwoSpellingsRepeat(decode: Decoder)
    requires decode("-w") == decode("+w") && decode("-w").Some?
    ensures !SpelledAlike([PLATFORM, SECURITY_KEY], decode)
    ensures Run(World([PLATFORM, SECURITY_KEY], []), [Sign(LISTED), Sign(OPEN)], decode).returned
         == [Returned("-w", 8), Returned("+w", 8)]
  {
    TwoCredentials(PLATFORM, SECURITY_KEY, ["-w"], decode);
    TwoCredentials(PLATFORM, SECURITY_KEY, [], decode);
    PickByBytes([PLATFORM, SECURITY_KEY], "-w", "+w", decode);
    TwoSigns([PLATFORM, SECURITY_KEY], ["-w"], [], PLATFORM, SECURITY_KEY, decode);
  }

  lemma TwoSteps(w: World, a: Event, b: Event, decode: Decoder)
    requires a.Sign? && b.Sign?
    ensures Legal(w, [a, b], decode) && Run(w, [a, b], decode) == Apply(Apply(w, a, decode), b, decode)
  {
    var events: seq<Event>, rest: seq<Event> := [a, b], [b];
    assert events[1..] == rest && rest[1..] == [];
    assert Legal(Apply(w, a, decode), rest, decode);
    assert Run(Apply(w, a, decode), rest, decode) == Apply(Apply(w, a, decode), b, decode);
  }

  lemma TwoCredentials(a: Credential, b: Credential, allow: seq<string>, decode: Decoder)
    requires a.rpId == RP_ID && b.rpId == RP_ID && a.transport == "internal" && b.transport == "usb"
    requires decode(a.credentialId) == decode(b.credentialId) && decode(a.credentialId).Some?
    requires allow == [] || allow == [a.credentialId]
    ensures PickCredential([a, b], RP_ID, allow, decode) == Picked(if allow == [] then b else a)
  {
    var creds: seq<Credential>, tail: seq<Credential> := [a, b], [b];
    assert creds[1..] == tail && tail[1..] == [];
    assert ForRp(tail, RP_ID) == tail;
    assert ForRp(creds, RP_ID) == creds;
    if allow != [] {
      assert decode(allow[0]) == decode(a.credentialId);
      assert Listed(a, allow, decode) && Listed(b, allow, decode);
      assert Matching(tail, allow, decode) == tail;
      assert Matching(creds, allow, decode) == creds;
    }
  }

  // ---- The service worker ----

  class Worker {
    var creds: seq<Credential>
    const decode: Decoder

    constructor (creds: seq<Credential>, decode: Decoder)
      ensures this.creds == creds && this.decode == decode
    {
      this.creds, this.decode := creds, decode;
    }

    /** Re-read storage and raise every counter of this id that is behind. */
    method PersistSignCount(credentialId: string, newCount: int)
      modifies this
      ensures creds == Raised(old(creds), credentialId, newCount)
      ensures IsRaised(old(creds), creds, credentialId, newCount)
    {
      var stored := creds;
      var changed := false;
      for i := 0 to |stored|
        invariant |stored| == |creds|
        invariant forall k :: 0 <= k < i ==> stored[k] == Raised(creds, credentialId, newCount)[k]
        invariant forall k :: i <= k < |stored| ==> stored[k] == creds[k]
        invariant !changed ==> stored == creds
      {
        var c := stored[i];
        if c.credentialId == credentialId && newCount > c.signCount {
          stored := stored[i := c.(signCount := newCount)];
          changed := true;
        }
      }
      assert stored == Raised(creds, credentialId, newCount);
      if changed {
        creds := stored;
      }
    }

    /** The pick's counter, raised by one, is stored and returned; a key that cannot sign raises it all the same.
        Without a pick, or for another party, nothing is stored. */
    ghost predicate Answered(a: seq<Credential>, b: seq<Credential>, req: Request, r: Response) {
      var ours := req.rpId == "" || req.rpId == "duosecurity.com";
      var wanted := if req.allow == [] then "usb" else "internal";
      if ours && PickCredential(a, "duosecurity.com", req.allow, decode).Picked? then
        exists c :: IsFirstBest(a, "duosecurity.com", req.allow, decode, wanted, c)
          && IsRaised(a, b, c.credentialId, c.signCount + 1)
          && r == (if req.signs then Signed(c.credentialId, c.signCount + 1) else Thrown)
      else
        b == a
        && (r == Thrown <==>
              ours && req.allow != [] && (exists c :: c in a && c.rpId == "duosecurity.com")
                && Undecodable(a, "duosecurity.com", req.allow, decode))
        && (r != Thrown ==> r == Declined)
    }

    /** One request of the queue, from the read of storage to its answer. */
    method HandleSign(req: Request) returns (r: Response)
      modifies this
      ensures (creds, r) == Signs(old(creds), req, decode)
      ensures Answered(old(creds), creds, req, r)
      ensures r.Signed? ==>
        forall i :: 0 <= i < |creds| && creds[i].credentialId == r.credentialId ==> creds[i].signCount >= r.signCount
    {
      PickIsFirstBest(creds, RP_ID, req.allow, decode);
      BadBase64Means(creds, RP_ID, req.allow, decode);
      if |creds| == 0 { return Declined; }
      var rpId := if req.rpId == "" then RP_ID else req.rpId;
      if rpId != RP_ID { return Declined; }
      var p := PickCredential(creds, rpId, req.allow, decode);
      match p {
        case NoMatch => return Declined;
        case BadBase64 => return Thrown;
        case Picked(c) =>
          var newCount := c.signCount + 1;
          PersistSignCount(c.credentialId, newCount);
          r := if req.signs then Signed(c.credentialId, newCount) else Thrown;
      }
    }
  }
}
