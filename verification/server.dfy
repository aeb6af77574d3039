/** The request handling of the API server (backend/app/main.py): the
    per-client rate limiter, the role-fit pipeline and the resume-upload
    gates. Clock readings are integer seconds passed in by the caller. */
module Server {
  import opened Base
  import opened Seqs
  import opened Sorting
  import opened Models
  import opened Scoring

  /** Requests allowed per client within one window. */
  const RateLimit: nat := 10
  /** Window length in seconds. */
  const Window: int := 60

  /** Only these two endpoints are rate limited. */
  predicate Limited(path: string) {
    path == "/api/role-fit" || path == "/api/detect-skills"
  }

  /** Request timestamps per client address; a missing address reads as an
      empty list, like a `defaultdict(list)`. */
  type Times = map<string, seq<int>>

  function Get(times: Times, ip: string): seq<int> {
    if ip in times then times[ip] else []
  }

  /** The timestamps still inside the window at time `now`, in order; a
      timestamp recorded twice is kept twice. */
  function Recent(ts: seq<int>, now: int): (r: seq<int>)
    ensures forall t :: t in r <==> t in ts && now - t < Window
    ensures forall t :: multiset(r)[t] == if now - t < Window then multiset(ts)[t] else 0
    ensures IsSubsequence(r, ts)
    ensures (forall i :: 0 <= i < |ts| ==> now - ts[i] < Window) ==> r == ts
    decreases |ts|
  {
    if |ts| == 0 then []
    else
      var rest := Recent(ts[1..], now);
      assert ts == [ts[0]] + ts[1..];
      assert multiset(ts) == multiset{ts[0]} + multiset(ts[1..]);
      assert forall t :: t in ts <==> t == ts[0] || t in ts[1..];
      assert forall i :: 1 <= i < |ts| ==> ts[i] == ts[1..][i - 1];
      if now - ts[0] < Window then
        assert ([ts[0]] + rest)[1..] == rest;
        assert multiset([ts[0]] + rest) == multiset{ts[0]} + multiset(rest);
        [ts[0]] + rest
      else
        DropHead(rest, ts);
        rest
  }

  /** The middleware's answer: hand the request on, or refuse it with a
      status code and a `detail` body. */
  datatype Verdict = Pass | Refused(status: nat, detail: string)

  /** The 429 response sent when a client is over the limit. */
  const TooMany := Refused(429, "Rate limit exceeded. Please try again later.")

  /** One request through the middleware. The pruned list is written back
      before the check, so it is stored even when the request is refused;
      only a request that passes records its own timestamp. */
  function Step(times: Times, path: string, ip: string, now: int): (r: (Times, Verdict))
    ensures !Limited(path) ==> r == (times, Pass)
    ensures Limited(path) ==> ip in r.0
    ensures Limited(path) ==> (r.1 == TooMany <==> |Recent(Get(times, ip), now)| >= RateLimit)
    ensures Limited(path) ==> (r.1 == Pass <==> |Recent(Get(times, ip), now)| < RateLimit)
    ensures Limited(path) && r.1 == TooMany ==> r.0[ip] == Recent(Get(times, ip), now)
    ensures Limited(path) && r.1 == Pass ==> r.0[ip] == Recent(Get(times, ip), now) + [now]
    ensures forall other :: other != ip ==> (other in r.0 <==> other in times) && Get(r.0, other) == Get(times, other)
  {
    if !Limited(path) then (times, Pass)
    else
      var window := Recent(Get(times, ip), now);
      if |window| >= RateLimit then (times[ip := window], TooMany)
      else (times[ip := window + [now]], Pass)
  }

  predicate WithinLimit(times: Times) {
    forall ip :: ip in times ==> |times[ip]| <= RateLimit
  }

  /** No client ever has more than ten timestamps on record. */
  lemma StepKeepsWithinLimit(times: Times, path: string, ip: string, now: int)
    requires WithinLimit(times)
    ensures WithinLimit(Step(times, path, ip, now).0)
  {
    var r := Step(times, path, ip, now).0;
    if Limited(path) {
      var window := Recent(Get(times, ip), now);
      SubsequenceLength(window, Get(times, ip));
      forall other | other in r ensures |r[other]| <= RateLimit {
        if other != ip {
          assert Get(r, other) == Get(times, other);
        }
      }
    }
  }

  /** A burst of requests from one client to a limited endpoint: the final
      table and how many requests were let through. */
  function Burst(times: Times, path: string, ip: string, nows: seq<int>): (r: (Times, nat))
    ensures r.1 <= |nows|
    decreases |nows|
  {
    if |nows| == 0 then (times, 0)
    else
      var s := Step(times, path, ip, nows[0]);
      var rest := Burst(s.0, path, ip, nows[1..]);
      (rest.0, rest.1 + if s.1 == Pass then 1 else 0)
  }

  predicate WithinOneWindow(nows: seq<int>) {
    forall i, j :: 0 <= i < |nows| && 0 <= j < |nows| ==> nows[i] - nows[j] < Window
  }

  lemma {:induction false} BurstCounts(times: Times, path: string, ip: string, nows: seq<int>)
    requires Limited(path) && WithinOneWindow(nows)
    requires |Get(times, ip)| <= RateLimit
    requires forall k, i :: 0 <= k < |Get(times, ip)| && 0 <= i < |nows| ==> nows[i] - Get(times, ip)[k] < Window
    ensures Burst(times, path, ip, nows).1 + |Get(times, ip)| <= RateLimit
    decreases |nows|
  {
    if |nows| > 0 {
      var old_ := Get(times, ip);
      var s := Step(times, path, ip, nows[0]);
      assert Recent(old_, nows[0]) == old_;
      var tail := nows[1..];
      assert WithinOneWindow(tail) by {
        forall i, j | 0 <= i < |tail| && 0 <= j < |tail| ensures tail[i] - tail[j] < Window {
          assert tail[i] == nows[i + 1] && tail[j] == nows[j + 1];
        }
      }
      var now' := Get(s.0, ip);
      forall k, i | 0 <= k < |now'| && 0 <= i < |tail| ensures tail[i] - now'[k] < Window {
        assert tail[i] == nows[i + 1];
        if k == |old_| {
          assert now'[k] == nows[0];
        } else {
          assert now'[k] == old_[k];
        }
      }
      BurstCounts(s.0, path, ip, tail);
    }
  }

  /** Within any sixty seconds a client that starts with a clean record gets
      at most ten requests through to a limited endpoint. */
  lemma AtMostTenPerWindow(times: Times, path: string, ip: string, nows: seq<int>)
    requires Limited(path) && WithinOneWindow(nows) && Get(times, ip) == []
    ensures Burst(times, path, ip, nows).1 <= RateLimit
  {
    BurstCounts(times, path, ip, nows);
  }

  /** The other direction of `BurstCounts`: while the timestamps on record
      and the requests still to come fit in ten, every request passes. */
  lemma {:induction false} BurstAllPass(times: Times, path: string, ip: string, nows: seq<int>)
    requires Limited(path) && WithinOneWindow(nows)
    requires |Get(times, ip)| + |nows| <= RateLimit
    requires forall k, i :: 0 <= k < |Get(times, ip)| && 0 <= i < |nows| ==> nows[i] - Get(times, ip)[k] < Window
    ensures Burst(times, path, ip, nows).1 == |nows|
    decreases |nows|
  {
    if |nows| > 0 {
      var old_ := Get(times, ip);
      var s := Step(times, path, ip, nows[0]);
      assert Recent(old_, nows[0]) == old_;
      assert s.1 == Pass;
      var tail := nows[1..];
      assert WithinOneWindow(tail) by {
        forall i, j | 0 <= i < |tail| && 0 <= j < |tail| ensures tail[i] - tail[j] < Window {
          assert tail[i] == nows[i + 1] && tail[j] == nows[j + 1];
        }
      }
      var now' := Get(s.0, ip);
      assert now' == old_ + [nows[0]];
      forall k, i | 0 <= k < |now'| && 0 <= i < |tail| ensures tail[i] - now'[k] < Window {
        assert tail[i] == nows[i + 1];
        if k == |old_| {
          assert now'[k] == nows[0];
        } else {
          assert now'[k] == old_[k];
        }
      }
      BurstAllPass(s.0, path, ip, tail);
    }
  }

  /** A client with a clean record that sends at most ten requests within
      sixty seconds to a limited endpoint gets every one of them through. */
  lemma UpToTenPerWindowPass(times: Times, path: string, ip: string, nows: seq<int>)
    requires Limited(path) && WithinOneWindow(nows) && Get(times, ip) == [] && |nows| <= RateLimit
    ensures Burst(times, path, ip, nows).1 == |nows|
  {
    BurstAllPass(times, path, ip, nows);
  }

  function SkillPairs(skills: seq<Skill>): (r: seq<(string, Level)>)
    ensures |r| == |skills| && forall i :: 0 <= i < |r| ==> r[i] == (skills[i].name, skills[i].level)
  {
    seq(|skills|, i requires 0 <= i < |skills| => (skills[i].name, skills[i].level))
  }

  /** The request's skills as a name-to-level dictionary; a repeated name
      takes the level of its last occurrence. */
  function UserSkills(skills: seq<Skill>): (r: map<string, Level>)
    ensures forall n :: n in r <==> exists i :: 0 <= i < |skills| && skills[i].name == n
    ensures forall i :: 0 <= i < |skills| && (forall j :: i < j < |skills| ==> skills[j].name != skills[i].name) ==>
      r[skills[i].name] == skills[i].level
  {
    var pairs := SkillPairs(skills);
    LastWins(pairs)
  }

  function FitKey(r: RoleResult): real {
    r.fitPercentage
  }

  /** Every seed role scored in seed order; `fitOf` is the floating-point fit
      formula for a role and the user's skills. */
  function ScoreAll(roles: seq<Role>, userSkills: map<string, Level>, fitOf: (Role, map<string, Level>) -> real): (r: seq<RoleResult>)
    ensures |r| == |roles|
    ensures forall i :: 0 <= i < |r| ==> r[i] == ScoreRole(roles[i], userSkills, fitOf(roles[i], userSkills))
  {
    seq(|roles|, i requires 0 <= i < |roles| => ScoreRole(roles[i], userSkills, fitOf(roles[i], userSkills)))
  }

  datatype RoleFitResponse = RoleFitResponse(roles: seq<RoleResult>, donut: seq<DonutEntry>, radar: RadarData)

  const EmptyRadar := RadarData([], [], [])

  /** `sort(key=fit, reverse=True)` followed by `[:top_n]`: a prefix of the
      stably sorted results, holding the best fits. */
  function Ranked(all: seq<RoleResult>, topN: int): (top: seq<RoleResult>)
    ensures |top| == SliceLength(|all|, topN)
    ensures SortedDesc(top, FitKey)
    ensures multiset(top) <= multiset(all)
    ensures forall x :: x in top ==> x in all
    ensures forall y, x :: y in top && x in all && multiset(top)[x] < multiset(all)[x] ==> FitKey(y) >= FitKey(x)
    ensures forall y, x :: y in top && x in all && x !in top ==> FitKey(y) >= FitKey(x)
  {
    Top(all, SliceLength(|all|, topN), FitKey)
  }

  /** The `/api/role-fit` endpoint: score every role, rank the results, and
      build both charts from the best role only. */
  function RoleFit(skills: seq<Skill>, roles: seq<Role>, fitOf: (Role, map<string, Level>) -> real, topN: int): (r: RoleFitResponse)
    ensures r.roles == Ranked(ScoreAll(roles, UserSkills(skills), fitOf), topN)
    ensures |r.roles| == SliceLength(|roles|, topN)
    ensures |r.roles| == 0 ==> r.donut == [] && r.radar == EmptyRadar
    ensures |r.roles| > 0 ==> var us := UserSkills(skills); var best := r.roles[0];
      r.donut == BuildDonut(best.matching, us) && r.radar == BuildRadar(best.matching, best.missing, us)
  {
    var us := UserSkills(skills);
    var top := Ranked(ScoreAll(roles, us, fitOf), topN);
    if |top| > 0 then RoleFitResponse(top, BuildDonut(top[0].matching, us), BuildRadar(top[0].matching, top[0].missing, us))
    else RoleFitResponse([], [], EmptyRadar)
  }

  /** Roles with equal fit stay in seed order in the response. */
  lemma RoleFitTiesKeepSeedOrder(skills: seq<Skill>, roles: seq<Role>, fitOf: (Role, map<string, Level>) -> real, topN: int, w: real)
    ensures IsPrefix(KeyClass(RoleFit(skills, roles, fitOf, topN).roles, FitKey, w),
                     KeyClass(ScoreAll(roles, UserSkills(skills), fitOf), FitKey, w))
  {
    var all := ScoreAll(roles, UserSkills(skills), fitOf);
    TopKeepsTies(all, SliceLength(|all|, topN), FitKey, w);
  }

  /** Largest accepted resume: 10 MiB. */
  const MaxUploadBytes: nat := 10 * 1024 * 1024

  datatype UploadCheck = Accepted | Rejected(status: int, detail: string)

  /** The gates of `/api/parse-resume`, in order: the content type, then the
      size; a file of exactly 10 MiB passes. */
  function CheckUpload(contentType: string, size: nat): (r: UploadCheck)
    ensures r == Accepted <==> contentType == "application/pdf" && size <= MaxUploadBytes
    ensures contentType != "application/pdf" ==> r == Rejected(400, "Only PDF files are allowed")
    ensures contentType == "application/pdf" && size > MaxUploadBytes ==> r == Rejected(400, "File too large (max 10MB)")
  {
    if contentType != "application/pdf" then Rejected(400, "Only PDF files are allowed")
    else if size > MaxUploadBytes then Rejected(400, "File too large (max 10MB)")
    else Accepted
  }

  /** A file that passes still passes at any smaller size. */
  lemma SmallerUploadPasses(contentType: string, size: nat, smaller: nat)
    requires CheckUpload(contentType, size) == Accepted && smaller <= size
    ensures CheckUpload(contentType, smaller) == Accepted
  {
  }

  /** The verdict is the two gates combined: the type gate (judged on an
      empty file) and the size gate (judged for a PDF). */
  lemma UploadGatesCombine(contentType: string, size: nat)
    ensures CheckUpload(contentType, size) == Accepted <==>
      CheckUpload(contentType, 0) == Accepted && CheckUpload("application/pdf", size) == Accepted
  {
  }
}
