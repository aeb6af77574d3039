/** The two taxonomy normalisers: the server's `normalize_skills`
    (backend/app/utils.py) and the client's `normalizeSkills`
    (frontend/src/utils/helpers.js). Both lower-case and trim the skill and
    take the first taxonomy entry that matches it; they differ in how a
    variant is compared and in what they return. */
module Normalize {
  import opened Base
  import opened Seqs
  import opened Text
  import opened Models

  /** The comparison key of a user-entered skill: lower-cased, then trimmed. */
  function Key(skill: string): string {
    Trim(Lower(skill))
  }

  datatype Side = ServerSide | ClientSide

  /** Whether a taxonomy entry claims a key. The server lower-cases the
      variants before comparing; the client compares them as written. */
  predicate Claims(side: Side, e: TaxonomyEntry, key: string) {
    match side
    case ServerSide => key == Lower(e.canonical) || exists v :: v in e.variants && key == Lower(v)
    case ClientSide => key in e.variants || Lower(e.canonical) == key
  }

  /** The first taxonomy entry, from position `from`, that claims the key. */
  function FirstClaim(side: Side, taxonomy: seq<TaxonomyEntry>, key: string, from: nat): (r: Option<nat>)
    ensures r.Some? ==> from <= r.value < |taxonomy| && Claims(side, taxonomy[r.value], key)
    ensures r.Some? ==> forall j :: from <= j < r.value ==> !Claims(side, taxonomy[j], key)
    ensures r.None? ==> forall j :: from <= j < |taxonomy| ==> !Claims(side, taxonomy[j], key)
    decreases |taxonomy| - from
  {
    if from >= |taxonomy| then None
    else if Claims(side, taxonomy[from], key) then Some(from)
    else FirstClaim(side, taxonomy, key, from + 1)
  }

  /** One skill through either normaliser: the canonical of the first entry
      that claims it, or the skill exactly as given. */
  function Canonical(side: Side, taxonomy: seq<TaxonomyEntry>, skill: string): (r: string)
    ensures forall j :: (0 <= j < |taxonomy| && Claims(side, taxonomy[j], Key(skill))
      && (forall k :: 0 <= k < j ==> !Claims(side, taxonomy[k], Key(skill)))) ==> r == taxonomy[j].canonical
    ensures (forall j :: 0 <= j < |taxonomy| ==> !Claims(side, taxonomy[j], Key(skill))) ==> r == skill
    ensures r == skill || r in Canonicals(taxonomy)
  {
    FirstClaimDecides(side, taxonomy, Key(skill));
    match FirstClaim(side, taxonomy, Key(skill), 0)
    case Some(j) =>
      assert taxonomy[j].canonical in Canonicals(taxonomy);
      taxonomy[j].canonical
    case None => skill
  }

  /** The entry `FirstClaim` finds is the one claiming entry that has no
      claiming entry before it. */
  lemma FirstClaimDecides(side: Side, taxonomy: seq<TaxonomyEntry>, key: string)
    ensures forall j :: (0 <= j < |taxonomy| && Claims(side, taxonomy[j], key)
      && (forall k :: 0 <= k < j ==> !Claims(side, taxonomy[k], key))) ==> FirstClaim(side, taxonomy, key, 0) == Some(j)
  {
    var first := FirstClaim(side, taxonomy, key, 0);
    forall j | 0 <= j < |taxonomy| && Claims(side, taxonomy[j], key) && (forall k :: 0 <= k < j ==> !Claims(side, taxonomy[k], key))
      ensures first == Some(j)
    {
      assert first.Some?;
    }
  }

  /** `normalizeSkills`: position by position, same length. */
  function ClientNormalize(skills: seq<string>, taxonomy: seq<TaxonomyEntry>): (r: seq<string>)
    ensures |r| == |skills|
    ensures forall i :: 0 <= i < |r| ==> r[i] == Canonical(ClientSide, taxonomy, skills[i])
  {
    seq(|skills|, i requires 0 <= i < |skills| => Canonical(ClientSide, taxonomy, skills[i]))
  }

  function Canonicals(taxonomy: seq<TaxonomyEntry>): (r: set<string>)
    ensures forall c :: c in r <==> exists j :: 0 <= j < |taxonomy| && taxonomy[j].canonical == c
  {
    set j | 0 <= j < |taxonomy| :: taxonomy[j].canonical
  }

  /** The server's list before de-duplication, one name per skill. */
  function ServerList(skills: seq<string>, taxonomy: seq<TaxonomyEntry>): (r: seq<string>)
    ensures |r| == |skills|
    ensures forall i :: 0 <= i < |r| ==> r[i] == Canonical(ServerSide, taxonomy, skills[i])
  {
    seq(|skills|, i requires 0 <= i < |skills| => Canonical(ServerSide, taxonomy, skills[i]))
  }

  lemma ServerListMembers(skills: seq<string>, taxonomy: seq<TaxonomyEntry>)
    ensures forall x :: x in ServerList(skills, taxonomy) <==> exists i :: 0 <= i < |skills| && x == Canonical(ServerSide, taxonomy, skills[i])
  {
    var names := ServerList(skills, taxonomy);
    forall x | x in names ensures exists i :: 0 <= i < |skills| && x == Canonical(ServerSide, taxonomy, skills[i]) {
      var i :| 0 <= i < |names| && names[i] == x;
    }
    forall x | exists i :: 0 <= i < |skills| && x == Canonical(ServerSide, taxonomy, skills[i]) ensures x in names {
      var i :| 0 <= i < |skills| && x == Canonical(ServerSide, taxonomy, skills[i]);
      assert names[i] == x;
    }
  }

  /** `normalize_skills`: the normalised names as a set, since
      `list(set(...))` keeps no order and no duplicates. Every name is a
      taxonomy canonical or one of the given skills, and there are no more
      names than skills. */
  function ServerNormalize(skills: seq<string>, taxonomy: seq<TaxonomyEntry>): (r: set<string>)
    ensures forall x :: x in r <==> exists i :: 0 <= i < |skills| && x == Canonical(ServerSide, taxonomy, skills[i])
    ensures forall x :: x in r ==> x in skills || x in Canonicals(taxonomy)
    ensures |r| <= |skills|
  {
    var names := ServerList(skills, taxonomy);
    ServerListMembers(skills, taxonomy);
    ElementsNoLarger(names);
    Elements(names)
  }

  /** Case and surrounding whitespace in a skill do not change which entry
      claims it, on either side. */
  lemma KeyIgnoresCaseAndPadding(w1: string, s: string, w2: string)
    requires IsBlank(w1) && IsBlank(w2)
    ensures Key(w1 + s + w2) == Key(s)
    ensures Key(Lower(s)) == Key(s)
  {
    LowerConcat(w1 + s, w2);
    LowerConcat(w1, s);
    assert Lower(w1 + s + w2) == w1 + Lower(s) + w2;
    TrimIgnoresPadding(w1, Lower(s), w2);
    LowerIsLower(s);
    assert Lower(Lower(s)) == Lower(s);
  }

  lemma SameKeySameCanonical(side: Side, taxonomy: seq<TaxonomyEntry>, a: string, b: string, j: nat)
    requires Key(a) == Key(b)
    requires j < |taxonomy| && Claims(side, taxonomy[j], Key(a))
    ensures Canonical(side, taxonomy, a) == Canonical(side, taxonomy, b)
  {
  }

  predicate LowerVariants(taxonomy: seq<TaxonomyEntry>) {
    forall j, v :: 0 <= j < |taxonomy| && v in taxonomy[j].variants ==> IsLower(v)
  }

  /** With every variant already lower-case the two sides claim the same
      keys, so they normalise every skill alike. */
  lemma SidesAgreeOnLowerVariants(taxonomy: seq<TaxonomyEntry>, skill: string)
    requires LowerVariants(taxonomy)
    ensures Canonical(ServerSide, taxonomy, skill) == Canonical(ClientSide, taxonomy, skill)
  {
    var key := Key(skill);
    forall j | 0 <= j < |taxonomy| ensures Claims(ServerSide, taxonomy[j], key) == Claims(ClientSide, taxonomy[j], key) {
      forall v | v in taxonomy[j].variants ensures Lower(v) == v {
        assert IsLower(v);
      }
    }
    SameClaimsSameFirst(taxonomy, key, 0);
  }

  lemma {:induction false} SameClaimsSameFirst(taxonomy: seq<TaxonomyEntry>, key: string, from: nat)
    requires forall j :: 0 <= j < |taxonomy| ==> Claims(ServerSide, taxonomy[j], key) == Claims(ClientSide, taxonomy[j], key)
    ensures FirstClaim(ServerSide, taxonomy, key, from) == FirstClaim(ClientSide, taxonomy, key, from)
    decreases |taxonomy| - from
  {
    if from < |taxonomy| {
      SameClaimsSameFirst(taxonomy, key, from + 1);
    }
  }

  /** A comparison key never holds an upper-case letter. */
  lemma KeyIsLower(skill: string)
    ensures IsLower(Key(skill))
  {
    var l := Lower(skill);
    LowerIsLower(skill);
    TrimKeepsCharacters(l);
    forall i | 0 <= i < |Key(skill)| ensures !('A' <= Key(skill)[i] <= 'Z') {
      assert Key(skill)[i] in Trim(l);
      var j :| 0 <= j < |l| && l[j] == Key(skill)[i];
    }
  }

  /** As written, the client can never match a variant that contains an
      upper-case letter, whatever the user typed, because it lower-cases the
      skill but not the variant; the server matches such a variant whenever
      the key is the variant lower-cased. */
  lemma ClientNeverMatchesUpperCaseVariant(e: TaxonomyEntry, v: string, skill: string)
    requires v in e.variants && !IsLower(v)
    ensures v != Key(skill)
    ensures Key(skill) == Lower(v) ==> Claims(ServerSide, e, Key(skill))
  {
    KeyIsLower(skill);
  }

  /** A witness of the mismatch: the taxonomy `{"JavaScript": ["JS"]}` and
      the skill "JS". */
  lemma ClientMissesUpperCaseVariant()
    ensures var taxonomy := [TaxonomyEntry("JavaScript", ["JS"])];
      Canonical(ServerSide, taxonomy, "JS") == "JavaScript"
      && Canonical(ClientSide, taxonomy, "JS") == "JS"
  {
    var taxonomy := [TaxonomyEntry("JavaScript", ["JS"])];
    assert Lower("JS") == "js";
    assert Key("JS") == "js" by {
      TrimOfTrimmed("js");
    }
    assert Claims(ServerSide, taxonomy[0], "js");
    assert "js" != "JS" && Lower("JavaScript") == "javascript";
  }

  /** The client lookup with the variant lower-cased as well, as the
      server does. */
  predicate ClaimsFixed(e: TaxonomyEntry, key: string) {
    (exists v :: v in e.variants && Lower(v) == key) || Lower(e.canonical) == key
  }

  function FirstClaimFixed(taxonomy: seq<TaxonomyEntry>, key: string, from: nat): (r: Option<nat>)
    ensures r.Some? ==> from <= r.value < |taxonomy| && ClaimsFixed(taxonomy[r.value], key)
    ensures r.None? ==> forall j :: from <= j < |taxonomy| ==> !ClaimsFixed(taxonomy[j], key)
    decreases |taxonomy| - from
  {
    if from >= |taxonomy| then None
    else if ClaimsFixed(taxonomy[from], key) then Some(from)
    else FirstClaimFixed(taxonomy, key, from + 1)
  }

  function ClientCanonicalFixed(taxonomy: seq<TaxonomyEntry>, skill: string): (r: string)
    ensures r == skill || r in Canonicals(taxonomy)
  {
    match FirstClaimFixed(taxonomy, Key(skill), 0)
    case Some(j) => taxonomy[j].canonical
    case None => skill
  }

  lemma {:induction false} FixedFirstIsServerFirst(taxonomy: seq<TaxonomyEntry>, key: string, from: nat)
    ensures FirstClaimFixed(taxonomy, key, from) == FirstClaim(ServerSide, taxonomy, key, from)
    decreases |taxonomy| - from
  {
    if from < |taxonomy| {
      assert ClaimsFixed(taxonomy[from], key) == Claims(ServerSide, taxonomy[from], key);
      FixedFirstIsServerFirst(taxonomy, key, from + 1);
    }
  }

  /** The corrected client lookup agrees with the server on every skill and
      every taxonomy. */
  lemma FixedClientAgreesWithServer(taxonomy: seq<TaxonomyEntry>, skill: string)
    ensures ClientCanonicalFixed(taxonomy, skill) == Canonical(ServerSide, taxonomy, skill)
  {
    FixedFirstIsServerFirst(taxonomy, Key(skill), 0);
  }
}
