/**
 * Selection helpers: the seeded min-hash choice of one entry, the
 * first-occurrence filter on entry ids, and the file-name sanitiser
 * for code names.
 */
module Selection {
  import opened Wrappers
  import opened Text
  import opened Json

  /** An entry is a string-keyed mapping (a decoded JSON object). */
  type Entry = map<string, Value>

  /**
   * The digest hexdigest(sha256(f"{seed}:{entry_id}")): an uninterpreted
   * function of the seed and the id; only its results' ordering matters.
   */
  type Hash = (int, Value) -> string

  /** entry.get("entry_id") */
  function EntryId(e: Entry): Value
  {
    Get(e, "entry_id")
  }

  predicate HasId(e: Entry)
  {
    Truthy(EntryId(e))
  }

  /** The member of a Python set that entry_id stands for. */
  function IdKey(e: Entry): Value
  {
    HashKey(EntryId(e))
  }

  function Digest(h: Hash, seed: int, e: Entry): string
  {
    h(seed, EntryId(e))
  }

  // ---------------------------------------------------------------------
  // stable_pick

  /** One iteration of the scan: a candidate with an id replaces the best so far when its digest is strictly smaller. */
  function PickStep(h: Hash, seed: int, best: Option<Entry>, e: Entry): Option<Entry>
  {
    if !HasId(e) then best
    else if best.None? || Less(Digest(h, seed, e), Digest(h, seed, best.value)) then Some(e)
    else best
  }

  /** The entry the scan holds after going through s from left to right. */
  function Pick(s: seq<Entry>, seed: int, h: Hash): Option<Entry>
  {
    if s == [] then None else PickStep(h, seed, Pick(s[..|s| - 1], seed, h), s[|s| - 1])
  }

  /** No entry of s that has an id has a digest smaller than b's. */
  ghost predicate IsMinimal(s: seq<Entry>, seed: int, h: Hash, b: Entry)
  {
    forall j :: 0 <= j < |s| && HasId(s[j]) ==> !Less(Digest(h, seed, s[j]), Digest(h, seed, b))
  }

  /** b stands in s at some position before which every entry with an id has a strictly larger digest. */
  ghost predicate IsEarliestMinimal(s: seq<Entry>, seed: int, h: Hash, b: Entry)
  {
    exists k :: 0 <= k < |s| && s[k] == b &&
      forall j :: 0 <= j < k && HasId(s[j]) ==> Less(Digest(h, seed, b), Digest(h, seed, s[j]))
  }

  /** Entries with ids and equal digests are the same entry (no hash collision among them). */
  ghost predicate DistinctDigests(s: seq<Entry>, seed: int, h: Hash)
  {
    forall i, j ::
      (0 <= i < |s| && 0 <= j < |s| && HasId(s[i]) && HasId(s[j]) &&
       Digest(h, seed, s[i]) == Digest(h, seed, s[j])) ==> s[i] == s[j]
  }

  /** What Pick promises about its result r on s: None exactly when no entry has an id, otherwise the first entry of minimal digest. */
  ghost predicate PickSpec(s: seq<Entry>, seed: int, h: Hash, r: Option<Entry>)
  {
    (r.None? <==> forall i :: 0 <= i < |s| ==> !HasId(s[i])) &&
    (r.Some? ==> HasId(r.value) && r.value in s && IsMinimal(s, seed, h, r.value) && IsEarliestMinimal(s, seed, h, r.value))
  }

  /** Pick finds nothing exactly when no entry has an id, and otherwise the first entry of minimal digest. */
  lemma {:induction false} PickIsEarliestMinimum(s: seq<Entry>, seed: int, h: Hash)
    ensures Pick(s, seed, h).None? <==> forall i :: 0 <= i < |s| ==> !HasId(s[i])
    ensures Pick(s, seed, h).Some? ==>
      var b := Pick(s, seed, h).value;
      HasId(b) && b in s && IsMinimal(s, seed, h, b) && IsEarliestMinimal(s, seed, h, b)
  {
    if s != [] {
      var p, e := s[..|s| - 1], s[|s| - 1];
      assert s == p + [e];
      PickIsEarliestMinimum(p, seed, h);
      var pb := Pick(p, seed, h);
      if !HasId(e) || (pb.Some? && !Less(Digest(h, seed, e), Digest(h, seed, pb.value))) {
        PickSpecKeep(p, e, seed, h, pb);
      } else {
        PickSpecReplace(p, e, seed, h, pb);
      }
    }
  }

  /** An entry that does not beat the best so far leaves the characterization of the best in place. */
  lemma PickSpecKeep(p: seq<Entry>, e: Entry, seed: int, h: Hash, pb: Option<Entry>)
    requires PickSpec(p, seed, h, pb)
    requires !HasId(e) || (pb.Some? && !Less(Digest(h, seed, e), Digest(h, seed, pb.value)))
    ensures PickSpec(p + [e], seed, h, pb)
  {
    var s := p + [e];
    if pb.Some? {
      var k :| 0 <= k < |p| && p[k] == pb.value &&
        forall j :: 0 <= j < k && HasId(p[j]) ==> Less(Digest(h, seed, pb.value), Digest(h, seed, p[j]));
      assert s[k] == pb.value;
      assert s[|s| - 1] == e;
    } else {
      assert s[|s| - 1] == e;
    }
  }

  /** An entry with an id that beats the best so far (or is the first with an id) becomes the first minimum. */
  lemma PickSpecReplace(p: seq<Entry>, e: Entry, seed: int, h: Hash, pb: Option<Entry>)
    requires PickSpec(p, seed, h, pb)
    requires HasId(e) && (pb.None? || Less(Digest(h, seed, e), Digest(h, seed, pb.value)))
    ensures PickSpec(p + [e], seed, h, Some(e))
  {
    var s := p + [e];
    var de := Digest(h, seed, e);
    forall j | 0 <= j < |s| - 1 && HasId(s[j])
      ensures !Less(Digest(h, seed, s[j]), de) && Less(de, Digest(h, seed, s[j]))
    {
      assert p[j] == s[j];
      var dj, dpb := Digest(h, seed, s[j]), Digest(h, seed, pb.value);
      assert !Less(dj, dpb);
      LessTotal(dj, dpb);
      if dj != dpb { LessTransitive(de, dpb, dj); }
      LessAsymmetric(de, dj);
    }
    LessIrreflexive(de);
    assert s[|s| - 1] == e;
  }

  /** Over two lists with the same members, Pick finds an entry of the same digest, and the same entry when digests are distinct. */
  lemma PickDependsOnlyOnMembers(s: seq<Entry>, t: seq<Entry>, seed: int, h: Hash)
    requires forall x :: x in s <==> x in t
    ensures Pick(s, seed, h).None? <==> Pick(t, seed, h).None?
    ensures Pick(s, seed, h).Some? ==>
      Digest(h, seed, Pick(s, seed, h).value) == Digest(h, seed, Pick(t, seed, h).value)
    ensures DistinctDigests(s, seed, h) ==> Pick(s, seed, h) == Pick(t, seed, h)
  {
    PickIsEarliestMinimum(s, seed, h);
    PickIsEarliestMinimum(t, seed, h);
    forall i | 0 <= i < |t| && HasId(t[i]) ensures Pick(s, seed, h).Some? {
      assert t[i] in s;
    }
    forall i | 0 <= i < |s| && HasId(s[i]) ensures Pick(t, seed, h).Some? {
      assert s[i] in t;
    }
    if Pick(s, seed, h).Some? {
      var bs, bt := Pick(s, seed, h).value, Pick(t, seed, h).value;
      var ds, dt := Digest(h, seed, bs), Digest(h, seed, bt);
      var i :| 0 <= i < |t| && t[i] == bs;
      var j :| 0 <= j < |s| && s[j] == bt;
      assert !Less(ds, dt) && !Less(dt, ds);
      LessTotal(ds, dt);
      var k :| 0 <= k < |s| && s[k] == bs;
      assert DistinctDigests(s, seed, h) ==> s[k] == s[j];
    }
  }

  function Reverse<T>(s: seq<T>): (r: seq<T>)
    ensures |r| == |s|
    ensures forall k :: 0 <= k < |s| ==> r[k] == s[|s| - 1 - k]
  {
    if s == [] then [] else Reverse(s[1..]) + [s[0]]
  }

  /** Reversing the input changes neither the minimum digest nor, when digests are distinct, the pick. */
  lemma PickReversal(s: seq<Entry>, seed: int, h: Hash)
    ensures Pick(s, seed, h).None? <==> Pick(Reverse(s), seed, h).None?
    ensures Pick(s, seed, h).Some? ==>
      Digest(h, seed, Pick(s, seed, h).value) == Digest(h, seed, Pick(Reverse(s), seed, h).value)
    ensures DistinctDigests(s, seed, h) ==> Pick(s, seed, h) == Pick(Reverse(s), seed, h)
  {
    var r := Reverse(s);
    forall x ensures x in s <==> x in r {
      if x in s {
        var k :| 0 <= k < |s| && s[k] == x;
        assert r[|s| - 1 - k] == x;
      }
      if x in r {
        var k :| 0 <= k < |r| && r[k] == x;
        assert s[|s| - 1 - k] == x;
      }
    }
    PickDependsOnlyOnMembers(s, r, seed, h);
  }

  /**
   * Without distinct digests the reversal claim fails: of two different
   * entries sharing an id, the scan keeps whichever comes first, so the
   * reversed list picks the other one.
   */
  lemma PickReversalSharedId(a: Entry, b: Entry, seed: int, h: Hash)
    requires HasId(a) && EntryId(b) == EntryId(a) && a != b
    ensures Pick([a, b], seed, h) == Some(a)
    ensures Pick(Reverse([a, b]), seed, h) == Some(b)
    ensures Pick([a, b], seed, h) != Pick(Reverse([a, b]), seed, h)
  {
    var d := Digest(h, seed, a);
    LessIrreflexive(d);
    assert Digest(h, seed, b) == d;
    assert [a, b][..1] == [a] && [a][..0] == [];
    assert Pick([a], seed, h) == Some(a);
    assert Reverse([a, b]) == [b, a];
    assert [b, a][..1] == [b] && [b][..0] == [];
    assert Pick([b], seed, h) == Some(b);
  }

  /** stable_pick(entries, seed) */
  method StablePick(entries: seq<Entry>, seed: int, h: Hash) returns (best: Option<Entry>)
    ensures best == Pick(entries, seed, h)
    ensures best.None? <==> forall i :: 0 <= i < |entries| ==> !HasId(entries[i])
    ensures best.Some? ==> HasId(best.value) && best.value in entries
    ensures best.Some? ==> IsMinimal(entries, seed, h, best.value) && IsEarliestMinimal(entries, seed, h, best.value)
  {
    best := None;
    var bestHash: Option<string> := None;
    var i := 0;
    while i < |entries|
      invariant 0 <= i <= |entries|
      invariant best == Pick(entries[..i], seed, h)
      invariant bestHash.None? <==> best.None?
      invariant best.Some? ==> bestHash.value == Digest(h, seed, best.value)
    {
      var entry := entries[i];
      var entryId := EntryId(entry);
      assert entries[..i + 1][..i] == entries[..i];
      if Truthy(entryId) {
        var digest := h(seed, entryId);
        if bestHash.None? || Less(digest, bestHash.value) {
          bestHash := Some(digest);
          best := Some(entry);
        }
      }
      i := i + 1;
    }
    assert entries[..i] == entries;
    PickIsEarliestMinimum(entries, seed, h);
  }

  // ---------------------------------------------------------------------
  // deduplicate_entries

  /**
   * The entries of s kept by the scan when the ids in `seen` have already
   * been met. Ids are compared as set members are, by their keys.
   */
  function DedupFrom(seen: set<Value>, s: seq<Entry>): seq<Entry>
    decreases |s|
  {
    if s == [] then []
    else if !HasId(s[0]) || IdKey(s[0]) in seen then DedupFrom(seen, s[1..])
    else [s[0]] + DedupFrom(seen + {IdKey(s[0])}, s[1..])
  }

  /** The truthy id at which `entry_id in seen` raises TypeError: the first one that is unhashable. */
  function FirstUnhashable(s: seq<Entry>): (r: Option<Value>)
    ensures r.None? <==> forall k :: 0 <= k < |s| && HasId(s[k]) ==> Hashable(EntryId(s[k]))
    ensures r.Some? ==>
      exists k :: 0 <= k < |s| && HasId(s[k]) && !Hashable(EntryId(s[k])) && r.value == EntryId(s[k]) &&
        forall j :: 0 <= j < k && HasId(s[j]) ==> Hashable(EntryId(s[j]))
    decreases |s|
  {
    if s == [] then None
    else if HasId(s[0]) && !Hashable(EntryId(s[0])) then Some(EntryId(s[0]))
    else
      var r := FirstUnhashable(s[1..]);
      assert forall k :: 1 <= k < |s| ==> s[k] == s[1..][k - 1];
      r
  }

  function Ids(s: seq<Entry>): set<Value>
  {
    set e | e in s :: IdKey(e)
  }

  /** The first entry of s whose id has key v. */
  function FirstWithId(s: seq<Entry>, v: Value): Option<Entry>
  {
    if s == [] then None else if IdKey(s[0]) == v then Some(s[0]) else FirstWithId(s[1..], v)
  }

  /** a can be obtained from b by deleting elements. */
  predicate IsSubsequence<T(==)>(a: seq<T>, b: seq<T>)
  {
    if a == [] then true
    else if b == [] then false
    else if a[0] == b[0] then IsSubsequence(a[1..], b[1..])
    else IsSubsequence(a, b[1..])
  }

  ghost predicate UniqueIds(s: seq<Entry>)
  {
    (forall k :: 0 <= k < |s| ==> HasId(s[k])) &&
    (forall k, l :: 0 <= k < l < |s| ==> IdKey(s[k]) != IdKey(s[l]))
  }

  lemma {:induction false} DedupFromIds(seen: set<Value>, s: seq<Entry>)
    ensures UniqueIds(DedupFrom(seen, s))
    ensures forall k :: 0 <= k < |DedupFrom(seen, s)| ==> IdKey(DedupFrom(seen, s)[k]) !in seen
    ensures IsSubsequence(DedupFrom(seen, s), s)
    ensures forall k :: 0 <= k < |DedupFrom(seen, s)| ==>
      FirstWithId(s, IdKey(DedupFrom(seen, s)[k])) == Some(DedupFrom(seen, s)[k])
    ensures forall i :: 0 <= i < |s| && HasId(s[i]) ==>
      IdKey(s[i]) in seen || IdKey(s[i]) in Ids(DedupFrom(seen, s))
    decreases |s|
  {
    if s != [] {
      var out := DedupFrom(seen, s);
      if !HasId(s[0]) || IdKey(s[0]) in seen {
        DedupFromIds(seen, s[1..]);
        SubsequenceOfTail(out, s);
        forall i | 0 <= i < |s| && HasId(s[i])
          ensures IdKey(s[i]) in seen || IdKey(s[i]) in Ids(out)
        {
          if i > 0 { assert s[1..][i - 1] == s[i]; }
        }
      } else {
        var v := IdKey(s[0]);
        var rest := DedupFrom(seen + {v}, s[1..]);
        DedupFromIds(seen + {v}, s[1..]);
        assert out == [s[0]] + rest;
        assert out[1..] == rest;
        forall i | 0 <= i < |s| && HasId(s[i])
          ensures IdKey(s[i]) in seen || IdKey(s[i]) in Ids(out)
        {
          if i > 0 {
            assert s[1..][i - 1] == s[i];
            if IdKey(s[i]) in Ids(rest) {
              var e :| e in rest && IdKey(e) == IdKey(s[i]);
              assert e in out;
            }
          } else {
            assert out[0] == s[0];
          }
        }
      }
    }
  }

  lemma {:induction false} SubsequenceOfTail<T>(a: seq<T>, b: seq<T>)
    requires b != [] && IsSubsequence(a, b[1..])
    ensures IsSubsequence(a, b)
    decreases |a| + |b|, 1
  {
    if a != [] && a[0] == b[0] {
      SubsequenceDropHead(a, b[1..]);
    }
  }

  lemma {:induction false} SubsequenceDropHead<T>(a: seq<T>, b: seq<T>)
    requires a != [] && IsSubsequence(a, b)
    ensures IsSubsequence(a[1..], b)
    decreases |a| + |b| + 1, 0
  {
    if a[0] == b[0] {
      if b[1..] != [] { SubsequenceOfTail(a[1..], b); }
      else { assert a[1..] == []; }
    } else {
      SubsequenceDropHead(a, b[1..]);
      SubsequenceOfTail(a[1..], b);
    }
  }

  /** A subsequence is no longer than the sequence and takes its elements from it. */
  lemma {:induction false} SubsequenceMembers<T>(a: seq<T>, b: seq<T>)
    requires IsSubsequence(a, b)
    ensures |a| <= |b|
    ensures forall k :: 0 <= k < |a| ==> a[k] in b
    decreases |b|
  {
    if a != [] {
      if a[0] == b[0] {
        SubsequenceMembers(a[1..], b[1..]);
        forall k | 0 <= k < |a| ensures a[k] in b {
          if k > 0 { assert a[1..][k - 1] == a[k]; assert a[k] in b[1..]; }
        }
      } else {
        SubsequenceMembers(a, b[1..]);
        forall k | 0 <= k < |a| ensures a[k] in b {
          assert a[k] in b[1..];
        }
      }
    }
  }

  /** A list whose ids are present, distinct and new is left unchanged. */
  lemma {:induction false} DedupFromUnique(seen: set<Value>, s: seq<Entry>)
    requires UniqueIds(s)
    requires forall k :: 0 <= k < |s| ==> IdKey(s[k]) !in seen
    ensures DedupFrom(seen, s) == s
    decreases |s|
  {
    if s != [] {
      assert IdKey(s[0]) !in seen;
      forall k | 0 <= k < |s[1..]| ensures IdKey(s[1..][k]) !in seen + {IdKey(s[0])} {
        assert s[1..][k] == s[k + 1];
      }
      DedupFromUnique(seen + {IdKey(s[0])}, s[1..]);
      assert s == [s[0]] + s[1..];
    }
  }

  /** deduplicate_entries is idempotent. */
  lemma DedupIdempotent(s: seq<Entry>)
    ensures DedupFrom({}, DedupFrom({}, s)) == DedupFrom({}, s)
  {
    DedupFromIds({}, s);
    DedupFromUnique({}, DedupFrom({}, s));
  }

  /** An id True and a later id 1 are the same member of seen, so only the first entry is kept. */
  lemma DedupTrueIsOne(a: Entry, b: Entry)
    requires EntryId(a) == Bool(true) && EntryId(b) == Int(1)
    ensures DedupFrom({}, [a, b]) == [a]
  {
    assert HasId(a) && IdKey(a) == Int(1) && IdKey(b) == Int(1);
    assert [a, b][1..] == [b] && [b][1..] == [];
    assert DedupFrom({Int(1)}, [b]) == [];
    var none: set<Value> := {};
    assert none + {IdKey(a)} == {Int(1)};
  }

  /**
   * deduplicate_entries(entries): the first entry of every id, or the
   * TypeError that `entry_id in seen` raises on an unhashable id.
   */
  method DeduplicateEntries(entries: seq<Entry>) returns (r: Result<seq<Entry>, Value>)
    ensures r.Failure? <==> FirstUnhashable(entries).Some?
    ensures r.Failure? ==> r.error == FirstUnhashable(entries).value
    ensures r.Success? ==> r.value == DedupFrom({}, entries)
    ensures r.Success? ==> UniqueIds(r.value) && IsSubsequence(r.value, entries)
    ensures r.Success? ==> forall k :: 0 <= k < |r.value| ==> FirstWithId(entries, IdKey(r.value[k])) == Some(r.value[k])
    ensures r.Success? ==> forall i :: 0 <= i < |entries| && HasId(entries[i]) ==> IdKey(entries[i]) in Ids(r.value)
  {
    var seen: set<Value> := {};
    var unique := [];
    var i := 0;
    while i < |entries|
      invariant 0 <= i <= |entries|
      invariant FirstUnhashable(entries) == FirstUnhashable(entries[i..])
      invariant DedupFrom({}, entries) == unique + DedupFrom(seen, entries[i..])
    {
      var entry := entries[i];
      var entryId := EntryId(entry);
      assert entries[i..][1..] == entries[i + 1..];
      if !Truthy(entryId) {
        i := i + 1;
        continue;
      }
      if !Hashable(entryId) {
        return Failure(entryId);
      }
      var key := HashKey(entryId);
      if key in seen {
        i := i + 1;
        continue;
      }
      seen := seen + {key};
      unique := unique + [entry];
      i := i + 1;
    }
    DedupFromIds({}, entries);
    r := Success(unique);
  }

  // ---------------------------------------------------------------------
  // normalize_code_name

  /** The characters of the class [A-Za-z0-9_.-]. */
  predicate IsSafe(c: char)
  {
    ('A' <= c <= 'Z') || ('a' <= c <= 'z') || ('0' <= c <= '9') || c == '_' || c == '.' || c == '-'
  }

  ghost predicate AllSafe(s: string)
  {
    forall k :: 0 <= k < |s| ==> IsSafe(s[k])
  }

  /** Drops a leading run of unsafe characters. */
  function DropUnsafe(s: string): (r: string)
    ensures |r| <= |s| && r == s[|s| - |r|..]
    ensures r != [] ==> IsSafe(r[0])
  {
    if s != [] && !IsSafe(s[0]) then DropUnsafe(s[1..]) else s
  }

  /** re.sub(r"[^A-Za-z0-9_.-]+", "_", s): every maximal run of unsafe characters becomes one "_". */
  function ReplaceUnsafeRuns(s: string): (r: string)
    ensures AllSafe(r)
    decreases |s|
  {
    if s == [] then []
    else if IsSafe(s[0]) then [s[0]] + ReplaceUnsafeRuns(s[1..])
    else "_" + ReplaceUnsafeRuns(DropUnsafe(s[1..]))
  }

  /** The fallback name for a code with nothing usable in it. */
  const Unknown := "unknown"

  lemma UnknownIsNormal()
    ensures Unknown != [] && AllSafe(Unknown)
    ensures Unknown[0] != '_' && Unknown[|Unknown| - 1] != '_'
  {
  }

  /** Trimming "_" from both ends keeps only characters of the string, so safety survives it. */
  lemma StripCharSafe(s: string)
    requires AllSafe(s)
    ensures AllSafe(StripChar(s, '_'))
  {
    var t := TrimStart(s, Only('_'));
    assert AllSafe(t);
    var u := TrimEnd(t, Only('_'));
    assert u == t[..|u|];
    assert AllSafe(u);
  }

  /** normalize_code_name(code): a non-empty, filesystem-safe name that does not start or end with "_". */
  function NormalizeCodeName(code: string): (r: string)
    ensures r != [] && AllSafe(r)
    ensures r[0] != '_' && r[|r| - 1] != '_'
  {
    UnknownIsNormal();
    if code == "" then Unknown
    else
      var replaced := ReplaceUnsafeRuns(Strip(code));
      var cleaned := StripChar(replaced, '_');
      StripCharSafe(replaced);
      if cleaned == "" then Unknown
      else
        assert cleaned[0] != '_' && cleaned[|cleaned| - 1] != '_';
        cleaned
  }

  /** A name that is already safe, non-empty and free of "_" at either end is its own normal form. */
  lemma NormalizeFixpoint(code: string)
    requires code != [] && AllSafe(code) && code[0] != '_' && code[|code| - 1] != '_'
    ensures NormalizeCodeName(code) == code
  {
    assert !IsSpace(code[0]) && !IsSpace(code[|code| - 1]);
    assert TrimStart(code, Spaces) == code;
    assert TrimEnd(code, Spaces) == code;
    ReplaceSafe(code);
  }

  lemma NormalizeIdempotent(code: string)
    ensures NormalizeCodeName(NormalizeCodeName(code)) == NormalizeCodeName(code)
  {
    NormalizeFixpoint(NormalizeCodeName(code));
  }

  /** The substitution copies a safe prefix unchanged. */
  lemma {:induction false} ReplaceSafePrefix(a: string, b: string)
    requires AllSafe(a)
    ensures ReplaceUnsafeRuns(a + b) == a + ReplaceUnsafeRuns(b)
  {
    if a == [] {
      assert a + b == b;
    } else {
      var t := a[1..];
      assert IsSafe(a[0]);
      ReplaceSafePrefix(t, b);
      assert (a + b)[0] == a[0];
      assert (a + b)[1..] == t + b;
      assert ReplaceUnsafeRuns(a + b) == [a[0]] + ReplaceUnsafeRuns(t + b);
      assert [a[0]] + (t + ReplaceUnsafeRuns(b)) == a + ReplaceUnsafeRuns(b);
    }
  }

  /** A string made of safe characters only is left unchanged by the substitution. */
  lemma ReplaceSafe(s: string)
    requires AllSafe(s)
    ensures ReplaceUnsafeRuns(s) == s
  {
    ReplaceSafePrefix(s, []);
    assert s + [] == s;
  }

  /** A maximal run of unsafe characters becomes a single "_". */
  lemma {:induction false} ReplaceUnsafeRun(u: string, b: string)
    requires u != [] && forall k :: 0 <= k < |u| ==> !IsSafe(u[k])
    requires b == [] || IsSafe(b[0])
    ensures ReplaceUnsafeRuns(u + b) == "_" + ReplaceUnsafeRuns(b)
  {
    DropUnsafeRun(u[1..], b);
    assert (u + b)[1..] == u[1..] + b;
  }

  lemma {:induction false} DropUnsafeRun(u: string, b: string)
    requires forall k :: 0 <= k < |u| ==> !IsSafe(u[k])
    requires b == [] || IsSafe(b[0])
    ensures DropUnsafe(u + b) == b
  {
    if u != [] {
      assert (u + b)[1..] == u[1..] + b;
      DropUnsafeRun(u[1..], b);
    } else {
      assert u + b == b;
    }
  }

  lemma NormalizeEmpty()
    ensures NormalizeCodeName("") == "unknown"
  {
  }

  lemma {:induction false} TrimStartPrefix(w: string, t: string, drop: CharClass)
    requires forall k :: 0 <= k < |w| ==> InClass(w[k], drop)
    requires t == [] || !InClass(t[0], drop)
    ensures TrimStart(w + t, drop) == t
  {
    if w == [] {
      assert w + t == t;
    } else {
      assert (w + t)[1..] == w[1..] + t;
      TrimStartPrefix(w[1..], t, drop);
    }
  }

  lemma {:induction false} TrimEndSuffix(t: string, w: string, drop: CharClass)
    requires forall k :: 0 <= k < |w| ==> InClass(w[k], drop)
    requires t == [] || !InClass(t[|t| - 1], drop)
    ensures TrimEnd(t + w, drop) == t
  {
    if w == [] {
      assert t + w == t;
    } else {
      assert (t + w)[..|t + w| - 1] == t + w[..|w| - 1];
      TrimEndSuffix(t, w[..|w| - 1], drop);
    }
  }

  /** Composes the three stages of normalize_code_name for a name whose substituted form has no "_" at either end. */
  lemma NormalizeByStages(code: string, stripped: string, replaced: string)
    requires code != "" && Strip(code) == stripped && ReplaceUnsafeRuns(stripped) == replaced
    requires replaced != [] && replaced[0] != '_' && replaced[|replaced| - 1] != '_'
    ensures NormalizeCodeName(code) == replaced
  {
    assert StripChar(replaced, '_') == replaced;
  }

  /**
   * Surrounding whitespace is removed and one run of unsafe characters
   * between two safe parts becomes "_": "VASP/6.3" gives "VASP_6.3" and
   * " Quantum Espresso " gives "Quantum_Espresso".
   */
  lemma NormalizeJoin(w1: string, a: string, u: string, b: string, w2: string)
    requires forall k :: 0 <= k < |w1| ==> IsSpace(w1[k])
    requires forall k :: 0 <= k < |w2| ==> IsSpace(w2[k])
    requires a != [] && AllSafe(a) && a[0] != '_'
    requires b != [] && AllSafe(b) && b[|b| - 1] != '_'
    requires u != [] && forall k :: 0 <= k < |u| ==> !IsSafe(u[k])
    ensures NormalizeCodeName(w1 + a + u + b + w2) == a + "_" + b
  {
    JoinParts(w1, a, u, b, w2);
    ReplaceJoin(a, u, b);
    NormalizeJoinParts(w1, a + u + b, w2, a + "_" + b);
  }

  lemma NormalizeJoinParts(w1: string, inner: string, w2: string, r: string)
    requires forall k :: 0 <= k < |w1| ==> IsSpace(w1[k])
    requires forall k :: 0 <= k < |w2| ==> IsSpace(w2[k])
    requires inner != [] && !IsSpace(inner[0]) && !IsSpace(inner[|inner| - 1])
    requires ReplaceUnsafeRuns(inner) == r
    requires r != [] && r[0] != '_' && r[|r| - 1] != '_'
    ensures NormalizeCodeName(w1 + inner + w2) == r
  {
    StripJoin(w1, inner, w2);
    NormalizeByStages(w1 + inner + w2, inner, r);
  }

  lemma JoinParts(w1: string, a: string, u: string, b: string, w2: string)
    requires a != [] && AllSafe(a) && a[0] != '_'
    requires b != [] && AllSafe(b) && b[|b| - 1] != '_'
    ensures w1 + a + u + b + w2 == w1 + (a + u + b) + w2
    ensures w1 + (a + u + b) + w2 != []
    ensures a + u + b != [] && !IsSpace((a + u + b)[0]) && !IsSpace((a + u + b)[|a + u + b| - 1])
    ensures a + "_" + b != [] && (a + "_" + b)[0] != '_' && (a + "_" + b)[|a + "_" + b| - 1] != '_'
  {
    assert (a + u + b)[0] == a[0] && IsSafe(a[0]);
    assert (a + u + b)[|a + u + b| - 1] == b[|b| - 1] && IsSafe(b[|b| - 1]);
    assert (a + "_" + b)[0] == a[0] && (a + "_" + b)[|a + "_" + b| - 1] == b[|b| - 1];
  }

  lemma StripJoin(w1: string, inner: string, w2: string)
    requires forall k :: 0 <= k < |w1| ==> IsSpace(w1[k])
    requires forall k :: 0 <= k < |w2| ==> IsSpace(w2[k])
    requires inner != [] && !IsSpace(inner[0]) && !IsSpace(inner[|inner| - 1])
    ensures Strip(w1 + inner + w2) == inner
  {
    var code := w1 + inner + w2;
    assert code == w1 + (inner + w2);
    TrimStartPrefix(w1, inner + w2, Spaces);
    TrimEndSuffix(inner, w2, Spaces);
  }

  lemma ReplaceJoin(a: string, u: string, b: string)
    requires AllSafe(a) && b != [] && AllSafe(b)
    requires u != [] && forall k :: 0 <= k < |u| ==> !IsSafe(u[k])
    ensures ReplaceUnsafeRuns(a + u + b) == a + "_" + b
  {
    var ub := u + b;
    AssocThree(a, u, b);
    ReplaceSafePrefix(a, ub);
    ReplaceUnsafeRun(u, b);
    ReplaceSafe(b);
    AssocThree(a, "_", b);
  }

  lemma AssocThree(a: string, u: string, b: string)
    ensures a + u + b == a + (u + b)
  {
  }
}
