// Function references: candidates filtered, and one reference per declaration and name.

module FnRefs {
  import opened ScopeWalk
  import opened Strings

  datatype Candidate = Candidate(from: nat, name: string, at: nat)

  /** A member, a qualified name, or a name this file defines or imports. */
  predicate Passes(c: Candidate, defined: set<string>, imported: set<string>) {
    StandsAt(c.name, 0, "this.") || Contains(c.name, "::") || c.name in defined || c.name in imported
  }

  /** Two candidates are one reference if their declarations share the id and they share the name. */
  function Key(c: Candidate, ids: seq<Id>): (Id, string)
    requires c.from < |ids|
  {
    (ids[c.from], c.name)
  }

  predicate InRange(cands: seq<Candidate>, ids: seq<Id>) { forall k :: 0 <= k < |cands| ==> cands[k].from < |ids| }

  /** Candidate `k` passes, and no earlier passing one has its key. */
  ghost predicate IsFirst(cands: seq<Candidate>, k: nat, ids: seq<Id>, defined: set<string>, imported: set<string>)
    requires InRange(cands, ids) && k < |cands|
  {
    && Passes(cands[k], defined, imported)
    && forall j :: 0 <= j < k && Passes(cands[j], defined, imported) ==> Key(cands[j], ids) != Key(cands[k], ids)
  }

  /** The first passing candidates, in order. */
  ghost function Firsts(cands: seq<Candidate>, n: nat, ids: seq<Id>, defined: set<string>, imported: set<string>): seq<Candidate>
    requires InRange(cands, ids) && n <= |cands|
  {
    if n == 0 then []
    else Firsts(cands, n - 1, ids, defined, imported)
         + if IsFirst(cands, n - 1, ids, defined, imported) then [cands[n - 1]] else []
  }

  method Flush(cands: seq<Candidate>, ids: seq<Id>, defined: set<string>, imported: set<string>, generated: bool)
    returns (refs: seq<Candidate>)
    requires InRange(cands, ids)
    ensures refs == if generated then [] else Firsts(cands, |cands|, ids, defined, imported)
  {
    refs := [];
    if |cands| == 0 || generated {
      return;
    }
    var seen: set<(Id, string)> := {};
    var k := 0;
    while k < |cands|
      invariant k <= |cands| && refs == Firsts(cands, k, ids, defined, imported)
      invariant forall key :: key in seen <==> exists j :: 0 <= j < k && Passes(cands[j], defined, imported) && Key(cands[j], ids) == key
    {
      var c := cands[k];
      if !StandsAt(c.name, 0, "this.") && !Contains(c.name, "::") && c.name !in defined && c.name !in imported {
        k := k + 1;
        continue;
      }
      if Key(c, ids) !in seen {
        seen := seen + {Key(c, ids)};
        refs := refs + [c];
      }
      k := k + 1;
    }
  }

  predicate DistinctKeys(refs: seq<Candidate>, ids: seq<Id>)
    requires InRange(refs, ids)
  {
    forall j, k :: 0 <= j < k < |refs| ==> Key(refs[j], ids) != Key(refs[k], ids)
  }

  /** Every reference is a passing candidate of the first `n`. */
  predicate AllPass(refs: seq<Candidate>, cands: seq<Candidate>, n: nat, defined: set<string>, imported: set<string>)
    requires n <= |cands|
  {
    forall r <- refs :: r in cands[..n] && Passes(r, defined, imported)
  }

  predicate HasKey(refs: seq<Candidate>, ids: seq<Id>, key: (Id, string))
    requires InRange(refs, ids)
  {
    exists k :: 0 <= k < |refs| && Key(refs[k], ids) == key
  }

  lemma {:induction false} FirstsPass(cands: seq<Candidate>, n: nat, ids: seq<Id>, defined: set<string>, imported: set<string>)
    requires InRange(cands, ids) && n <= |cands|
    ensures var refs := Firsts(cands, n, ids, defined, imported);
            AllPass(refs, cands, n, defined, imported) && InRange(refs, ids)
    decreases n
  {
    hide Passes;
    if n > 0 {
      FirstsPass(cands, n - 1, ids, defined, imported);
      assert cands[..n] == cands[..n - 1] + [cands[n - 1]];
      var refs := Firsts(cands, n, ids, defined, imported);
      forall k | 0 <= k < |refs| ensures refs[k].from < |ids| {
        assert refs[k] in cands[..n];
      }
    }
  }

  /** The key of an earlier passing candidate differs from that of a first one. */
  lemma {:induction false} FirstsDistinct(cands: seq<Candidate>, n: nat, ids: seq<Id>, defined: set<string>, imported: set<string>)
    requires InRange(cands, ids) && n <= |cands|
    ensures var refs := Firsts(cands, n, ids, defined, imported);
            InRange(refs, ids) && DistinctKeys(refs, ids)
    decreases n
  {
    hide Passes;
    FirstsPass(cands, n, ids, defined, imported);
    if n > 0 {
      FirstsDistinct(cands, n - 1, ids, defined, imported);
      var before, last := Firsts(cands, n - 1, ids, defined, imported), cands[n - 1];
      if IsFirst(cands, n - 1, ids, defined, imported) {
        FirstsPass(cands, n - 1, ids, defined, imported);
        forall r <- before ensures Key(r, ids) != Key(last, ids) {
          var j :| 0 <= j < n - 1 && cands[j] == r;
        }
      }
    }
  }

  lemma {:induction false} FirstsCover(
      cands: seq<Candidate>, n: nat, ids: seq<Id>, defined: set<string>, imported: set<string>, k: nat)
    requires InRange(cands, ids) && k < n <= |cands| && Passes(cands[k], defined, imported)
    ensures InRange(Firsts(cands, n, ids, defined, imported), ids)
    ensures HasKey(Firsts(cands, n, ids, defined, imported), ids, Key(cands[k], ids))
    decreases n
  {
    hide Passes, HasKey;
    var before, refs := Firsts(cands, n - 1, ids, defined, imported), Firsts(cands, n, ids, defined, imported);
    FirstsPass(cands, n, ids, defined, imported);
    FirstsPass(cands, n - 1, ids, defined, imported);
    if k < n - 1 {
      FirstsCover(cands, n - 1, ids, defined, imported, k);
      KeyStays(before, refs, ids, Key(cands[k], ids));
    } else if IsFirst(cands, k, ids, defined, imported) {
      LastHasKey(refs, ids);
    } else {
      var j: nat :| j < k && Passes(cands[j], defined, imported) && Key(cands[j], ids) == Key(cands[k], ids);
      FirstsCover(cands, n - 1, ids, defined, imported, j);
      KeyStays(before, refs, ids, Key(cands[k], ids));
    }
  }

  lemma KeyStays(before: seq<Candidate>, refs: seq<Candidate>, ids: seq<Id>, key: (Id, string))
    requires before <= refs && InRange(refs, ids) && InRange(before, ids) && HasKey(before, ids, key)
    ensures HasKey(refs, ids, key)
  {
    var k :| 0 <= k < |before| && Key(before[k], ids) == key;
    assert refs[k] == before[k];
  }

  lemma LastHasKey(refs: seq<Candidate>, ids: seq<Id>)
    requires refs != [] && InRange(refs, ids)
    ensures HasKey(refs, ids, Key(refs[|refs| - 1], ids))
  {}

  /** One reference per key, each a passing candidate; and every passing candidate's key has one. */
  lemma FirstsExact(cands: seq<Candidate>, n: nat, ids: seq<Id>, defined: set<string>, imported: set<string>)
    requires InRange(cands, ids) && n <= |cands|
    ensures var refs := Firsts(cands, n, ids, defined, imported);
            && InRange(refs, ids) && DistinctKeys(refs, ids)
            && AllPass(refs, cands, n, defined, imported)
            && (forall k :: 0 <= k < n && Passes(cands[k], defined, imported) ==> HasKey(refs, ids, Key(cands[k], ids)))
  {
    hide Passes, HasKey, Firsts, DistinctKeys, AllPass;
    FirstsPass(cands, n, ids, defined, imported);
    FirstsDistinct(cands, n, ids, defined, imported);
    forall k | 0 <= k < n && Passes(cands[k], defined, imported)
      ensures HasKey(Firsts(cands, n, ids, defined, imported), ids, Key(cands[k], ids))
    {
      FirstsCover(cands, n, ids, defined, imported, k);
    }
  }

  /** A member of `this`, a name with a `::` in it, or one the file defines or imports. */
  predicate Known(name: string, defined: set<string>, imported: set<string>) {
    || (|name| >= 5 && name[..5] == "this.")
    || (exists i :: 0 <= i < |name| - 1 && name[i] == ':' && name[i + 1] == ':')
    || name in defined + imported
  }

  lemma PassesKnown(c: Candidate, defined: set<string>, imported: set<string>)
    ensures Passes(c, defined, imported) <==> Known(c.name, defined, imported)
  {
    var name := c.name;
    if Contains(name, "::") {
      var i :| 0 <= i <= |name| && StandsAt(name, i, "::");
      assert name[i] == name[i..i + 2][0] && name[i + 1] == name[i..i + 2][1];
    }
    if i :| 0 <= i < |name| - 1 && name[i] == ':' && name[i + 1] == ':' {
      assert name[i..i + 2] == "::";
      assert StandsAt(name, i, "::");
    }
  }

  /** A candidate's declaration and name are among the references exactly if the name is known. */
  lemma KeptExactly(cands: seq<Candidate>, ids: seq<Id>, defined: set<string>, imported: set<string>, k: nat)
    requires InRange(cands, ids) && k < |cands|
    ensures var refs := Firsts(cands, |cands|, ids, defined, imported);
            InRange(refs, ids) && (HasKey(refs, ids, Key(cands[k], ids)) <==> Known(cands[k].name, defined, imported))
  {
    hide Passes, Known;
    var refs := Firsts(cands, |cands|, ids, defined, imported);
    FirstsPass(cands, |cands|, ids, defined, imported);
    PassesKnown(cands[k], defined, imported);
    if Passes(cands[k], defined, imported) {
      FirstsCover(cands, |cands|, ids, defined, imported, k);
    }
    if HasKey(refs, ids, Key(cands[k], ids)) {
      var j :| 0 <= j < |refs| && Key(refs[j], ids) == Key(cands[k], ids);
      assert refs[j] in refs && refs[j].name == cands[k].name;
      PassesKnown(refs[j], defined, imported);
    }
  }
}
