/** The runs of letters and digits in a text, told by where they stand. */
module TextRuns {
  import opened Text

  datatype Place = Place(start: nat, end: nat)

  /** A run: letters and digits, at least so many, with none on either side. */
  ghost predicate IsRun(s: string, p: Place, least: nat) {
    && p.start + least <= p.end <= |s| && p.start < p.end
    && (forall i :: p.start <= i < p.end ==> IsAlnum(s[i]))
    && (p.start > 0 ==> !IsAlnum(s[p.start - 1])) && (p.end < |s| ==> !IsAlnum(s[p.end]))
  }

  /** The runs that start at or after `from`, left to right, where they stand. */
  ghost predicate PlacesFrom(s: string, from: nat, least: nat, places: seq<Place>) {
    && (forall i :: 0 <= i < |places| ==> from <= places[i].start && IsRun(s, places[i], least))
    && (forall i, j :: 0 <= i < j < |places| ==> places[i].end < places[j].start)
    && (forall p: Place :: from <= p.start && IsRun(s, p, least) ==> p in places)
  }

  ghost predicate Reads(s: string, places: seq<Place>, words: seq<string>) {
    && |words| == |places|
    && forall i :: 0 <= i < |places| ==> places[i].start <= places[i].end <= |s|
                                         && words[i] == s[places[i].start..places[i].end]
  }

  /** The runs of `s`, each as often as it stands there, in order. */
  ghost predicate AreRuns(s: string, least: nat, words: seq<string>) {
    exists places :: PlacesFrom(s, 0, least, places) && Reads(s, places, words)
  }

  /** The runs of `s`, the first of which is still growing as `run`. */
  function RunList(s: string, run: string, least: nat): seq<string>
    requires least > 0
    decreases |s|
  {
    var done := if |run| >= least then [run] else [];
    if s == "" then done
    else if IsAlnum(s[0]) then RunList(s[1..], run + [s[0]], least)
    else done + RunList(s[1..], "", least)
  }

  /** A run of letters and digits still growing at `k`. */
  ghost predicate Growing(s: string, from: nat, k: nat) {
    && from <= k <= |s| && (forall i :: from <= i < k ==> IsAlnum(s[i]))
    && (from > 0 ==> !IsAlnum(s[from - 1]))
  }

  /** The run stops at `k`: it is long enough or too short. */
  lemma RunStops(s: string, from: nat, k: nat, least: nat, later: seq<Place>)
    requires least > 0
    requires Growing(s, from, k) && (k < |s| ==> !IsAlnum(s[k])) && PlacesFrom(s, k, least, later)
    ensures PlacesFrom(s, from, least, (if k - from >= least then [Place(from, k)] else []) + later)
  {
    var places := (if k - from >= least then [Place(from, k)] else []) + later;
    forall p: Place | from <= p.start && IsRun(s, p, least)
      ensures p in places
    {
      if p.start < k {
        assert p.start == from;
        assert p.end == k;
      }
    }
  }

  lemma SkipOne(s: string, k: nat, least: nat, places: seq<Place>)
    requires k < |s| && !IsAlnum(s[k]) && PlacesFrom(s, k + 1, least, places)
    ensures PlacesFrom(s, k, least, places)
  {
    forall p: Place | k <= p.start && IsRun(s, p, least)
      ensures p in places
    {
    }
  }

  lemma ReadsMore(s: string, from: nat, k: nat, least: nat, later: seq<Place>, words: seq<string>)
    requires from <= k <= |s| && Reads(s, later, words)
    ensures Reads(s, (if k - from >= least then [Place(from, k)] else []) + later,
                  (if |s[from..k]| >= least then [s[from..k]] else []) + words)
  {
  }

  lemma {:induction false} RunsStand(s: string, from: nat, k: nat, least: nat) returns (places: seq<Place>)
    requires Growing(s, from, k) && least > 0
    ensures PlacesFrom(s, from, least, places) && Reads(s, places, RunList(s[k..], s[from..k], least))
    decreases |s| - k
  {
    var first := if k - from >= least then [Place(from, k)] else [];
    if k == |s| {
      RunStops(s, from, k, least, []);
      ReadsMore(s, from, k, least, [], []);
      places := first + [];
    } else {
      assert s[k..][1..] == s[k + 1..];
      if IsAlnum(s[k]) {
        assert s[from..k + 1] == s[from..k] + [s[k]];
        places := RunsStand(s, from, k + 1, least);
      } else {
        assert s[k + 1..k + 1] == "";
        var later := RunsStand(s, k + 1, k + 1, least);
        SkipOne(s, k, least, later);
        RunStops(s, from, k, least, later);
        ReadsMore(s, from, k, least, later, RunList(s[k + 1..], "", least));
        places := first + later;
      }
    }
  }

  lemma {:induction false} PlacesUnique(s: string, from: nat, least: nat, one: seq<Place>, other: seq<Place>)
    requires PlacesFrom(s, from, least, one) && PlacesFrom(s, from, least, other)
    ensures one == other
    decreases |one|
  {
    assert |other| > 0 ==> other[0] in one;
    if one != [] {
      assert one[0] in other && other[0] in one;
      assert one[0] == other[0];
      LaterPlaces(s, from, least, one);
      LaterPlaces(s, from, least, other);
      PlacesUnique(s, one[0].end, least, one[1..], other[1..]);
    }
  }

  lemma LaterPlaces(s: string, from: nat, least: nat, places: seq<Place>)
    requires PlacesFrom(s, from, least, places) && places != []
    ensures PlacesFrom(s, places[0].end, least, places[1..])
  {
    forall p: Place | places[0].end <= p.start && IsRun(s, p, least)
      ensures p in places[1..]
    {
      assert p in places && places == [places[0]] + places[1..];
    }
  }

  lemma RunListed(s: string, least: nat)
    requires least > 0
    ensures AreRuns(s, least, RunList(s, "", least))
  {
    assert s[0..] == s && s[0..0] == "";
    var places := RunsStand(s, 0, 0, least);
  }

  /** A text has one list of runs. */
  lemma RunsUnique(s: string, least: nat, one: seq<string>, other: seq<string>)
    requires AreRuns(s, least, one) && AreRuns(s, least, other)
    ensures one == other
  {
    var a :| PlacesFrom(s, 0, least, a) && Reads(s, a, one);
    var b :| PlacesFrom(s, 0, least, b) && Reads(s, b, other);
    PlacesUnique(s, 0, least, a, b);
  }
}
