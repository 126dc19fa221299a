/** The fields of a `childrenOf:<host>` hash: what `StoreRelation` writes
    into it and how `ChildNodes` reads it back (`redis/redis.go`). */
module Layout {
  import opened Strings

  const TargetPrefix := "target:"
  const MetaPrefix := "meta:"

  /** The field `target:<t>` that records the edge to `t`. */
  function TargetField(t: string): string
  {
    TargetPrefix + t
  }

  /** The field `meta:<t>:<k>` that holds metadata key `k` of the edge to `t`. */
  function MetaField(t: string, k: string): string
  {
    MetaPrefix + t + ":" + k
  }

  /** A field `ChildNodes` treats as metadata: it is not a target field and
      starts with `meta:`. */
  predicate IsMetaEntry(f: string)
  {
    !HasPrefix(f, TargetPrefix) && HasPrefix(f, MetaPrefix)
  }

  /** A metadata field whose remainder has the ':' that `ChildNodes` splits
      on; without one, taking element 1 of the split panics. */
  predicate Decodable(f: string)
  {
    IsMetaEntry(f) && ':' in f[|MetaPrefix|..]
  }

  /** The target a metadata field is grouped under: element 0 of the split. */
  function MetaTarget(f: string): string
    requires HasPrefix(f, MetaPrefix)
  {
    FirstSegment(f[|MetaPrefix|..])
  }

  /** The metadata key a field is read as: element 1 of the split. */
  function MetaKey(f: string): string
    requires Decodable(f)
  {
    SecondSegment(f[|MetaPrefix|..])
  }

  lemma TargetFieldIsNotMeta(t: string)
    ensures HasPrefix(TargetField(t), TargetPrefix) && !IsMetaEntry(TargetField(t))
  {
    PrefixOfConcat(TargetPrefix, t);
  }

  /** With ':'-free target and key, a metadata field decodes back to the
      pair it was built from. */
  lemma MetaFieldDecodes(t: string, k: string)
    requires ':' !in t && ':' !in k
    ensures Decodable(MetaField(t, k))
    ensures MetaTarget(MetaField(t, k)) == t && MetaKey(MetaField(t, k)) == k
  {
    var f := MetaField(t, k);
    assert f[0] == 'm';
    assert f[|MetaPrefix|..] == t + ":" + k;
    SegmentsOfJoin(t, k);
  }

  /** Whatever the target and key, the field `StoreRelation` writes can be
      split: it has the ':' between target and key. */
  lemma MetaFieldIsDecodable(t: string, k: string)
    ensures Decodable(MetaField(t, k))
  {
    var f := MetaField(t, k);
    assert f[0] == 'm';
    assert f[|MetaPrefix|..] == t + ":" + k;
    assert (t + ":" + k)[|t|] == ':';
  }

  lemma MetaFieldInjective(t: string)
    ensures forall k1, k2 :: MetaField(t, k1) == MetaField(t, k2) ==> k1 == k2
  {
    forall k1, k2 | MetaField(t, k1) == MetaField(t, k2)
      ensures k1 == k2
    {
      var n := |MetaPrefix + t + ":"|;
      assert k1 == MetaField(t, k1)[n..];
      assert k2 == MetaField(t, k2)[n..];
    }
  }

  /** The `meta:` fields of one edge. */
  function MetaFields(t: string, m: map<string, string>): map<string, string>
  {
    MetaFieldInjective(t);
    map k | k in m :: MetaField(t, k) := m[k]
  }

  /** `relationData` in `StoreRelation`: the target field plus one `meta:`
      field per metadata entry. */
  function RelationFields(t: string, m: map<string, string>): map<string, string>
  {
    map[TargetField(t) := t] + MetaFields(t, m)
  }

  /** The fields of one edge are exactly its target field, holding the
      target, and one `meta:<t>:<k>` field per metadata entry, holding its
      value: no entry is lost to a collision. */
  lemma RelationFieldsShape(t: string, m: map<string, string>)
    ensures TargetField(t) in RelationFields(t, m) && RelationFields(t, m)[TargetField(t)] == t
    ensures forall k :: k in m ==> MetaField(t, k) in RelationFields(t, m) && RelationFields(t, m)[MetaField(t, k)] == m[k]
    ensures forall f :: f in RelationFields(t, m) ==> f == TargetField(t) || exists k :: k in m && f == MetaField(t, k)
  {
    MetaFieldInjective(t);
    forall k | k in m
      ensures TargetField(t) != MetaField(t, k)
    {
      TargetNotMeta(t, k);
    }
  }

  lemma TargetNotMeta(t: string, k: string)
    ensures TargetField(t) != MetaField(t, k)
  {
    assert TargetField(t)[0] != MetaField(t, k)[0];
  }

  /** The invariant of every hash the backend holds: each metadata field can
      be split into target and key. */
  ghost predicate WellFormedHash(h: map<string, string>)
  {
    forall f :: f in h && IsMetaEntry(f) ==> Decodable(f)
  }

  /** The targets `ChildNodes` finds in a hash: the VALUE of every target
      field and the first segment of every metadata field. */
  function TargetsOf(h: map<string, string>): set<string>
  {
    (set f | f in h && HasPrefix(f, TargetPrefix) :: h[f]) +
    (set f | f in h && IsMetaEntry(f) :: MetaTarget(f))
  }

  /** The metadata keys `ChildNodes` finds for target `t`. */
  function MetaKeysOf(h: map<string, string>, t: string): set<string>
  {
    set f | f in h && Decodable(f) && MetaTarget(f) == t :: MetaKey(f)
  }

  /** The values of the fields that decode to the pair (t, k). More than one
      field can, once ids or keys contain ':'. */
  function Candidates(h: map<string, string>, t: string, k: string): set<string>
  {
    set f | f in h && Decodable(f) && MetaTarget(f) == t && MetaKey(f) == k :: h[f]
  }

  /** `targets` is a grouping `ChildNodes` can build from `h`, whatever the
      order it visits the fields in: one entry per target found, with the
      metadata keys found for it, each value taken from a field that decodes
      to that target and key. */
  ghost predicate Decodes(h: map<string, string>, targets: map<string, map<string, string>>)
  {
    && targets.Keys == TargetsOf(h)
    && (forall t :: t in targets ==> targets[t].Keys == MetaKeysOf(h, t))
    && (forall t, k :: t in targets && k in targets[t] ==> targets[t][k] in Candidates(h, t, k))
  }

  /** A field as `StoreRelation` writes it from ':'-free ids and keys. */
  predicate CleanField(f: string, v: string)
  {
    || (f == TargetField(v) && ':' !in v)
    || (Decodable(f) && f == MetaField(MetaTarget(f), MetaKey(f)))
  }

  /** A hash all of whose fields were written from ':'-free ids and keys. */
  ghost predicate CleanHash(h: map<string, string>)
  {
    forall f :: f in h ==> CleanField(f, h[f])
  }

  /** What `ChildNodes` does with one field `f` of value `v` while grouping:
      a target field makes sure its value has an entry, a metadata field
      sets its key under its target, any other field is skipped. */
  function GroupStep(targets: map<string, map<string, string>>, f: string, v: string): (r: map<string, map<string, string>>)
    requires IsMetaEntry(f) ==> Decodable(f)
    ensures targets.Keys <= r.Keys
  {
    if HasPrefix(f, TargetPrefix) then
      if v in targets then targets else targets[v := map[]]
    else if HasPrefix(f, MetaPrefix) then
      var t, k := MetaTarget(f), MetaKey(f);
      if t in targets then targets[t := targets[t][k := v]] else targets[t := map[k := v]]
    else targets
  }

  lemma TargetsOfAdd(h: map<string, string>, f: string, v: string)
    requires f !in h
    ensures TargetsOf(h[f := v]) ==
      TargetsOf(h) + (if HasPrefix(f, TargetPrefix) then {v}
                      else if IsMetaEntry(f) then {MetaTarget(f)} else {})
  {
    var h' := h[f := v];
    assert forall g :: g in h ==> g in h' && h'[g] == h[g];
  }

  lemma MetaKeysOfAdd(h: map<string, string>, f: string, v: string, t: string)
    requires f !in h
    ensures MetaKeysOf(h[f := v], t) ==
      MetaKeysOf(h, t) + (if Decodable(f) && MetaTarget(f) == t then {MetaKey(f)} else {})
  {
  }

  lemma CandidatesAdd(h: map<string, string>, f: string, v: string, t: string, k: string)
    requires f !in h
    ensures Candidates(h, t, k) <= Candidates(h[f := v], t, k)
    ensures Decodable(f) && MetaTarget(f) == t && MetaKey(f) == k ==> v in Candidates(h[f := v], t, k)
  {
    var h' := h[f := v];
    forall c | c in Candidates(h, t, k)
      ensures c in Candidates(h', t, k)
    {
      var g :| g in h && Decodable(g) && MetaTarget(g) == t && MetaKey(g) == k && h[g] == c;
      assert g in h' && h'[g] == c;
    }
    if Decodable(f) && MetaTarget(f) == t && MetaKey(f) == k {
      assert f in h' && h'[f] == v;
    }
  }

  lemma NoMetaKeysOutsideTargets(h: map<string, string>, t: string)
    requires t !in TargetsOf(h)
    ensures MetaKeysOf(h, t) == {}
  {
    forall g | g in h && Decodable(g)
      ensures MetaTarget(g) != t
    {
      assert MetaTarget(g) in TargetsOf(h);
    }
  }

  /** Grouping one more field keeps `Decodes`, whatever the order the
      fields are visited in. */
  lemma {:induction false} GroupStepDecodes(h: map<string, string>, targets: map<string, map<string, string>>, f: string, v: string)
    requires f !in h && (IsMetaEntry(f) ==> Decodable(f))
    requires Decodes(h, targets)
    ensures Decodes(h[f := v], GroupStep(targets, f, v))
  {
    var h', r := h[f := v], GroupStep(targets, f, v);
    TargetsOfAdd(h, f, v);
    assert r.Keys == TargetsOf(h');
    forall t | t in r
      ensures r[t].Keys == MetaKeysOf(h', t)
    {
      MetaKeysOfAdd(h, f, v, t);
      if t !in targets {
        NoMetaKeysOutsideTargets(h, t);
      }
      MetaKeysStep(targets, f, v, t, MetaKeysOf(h, t));
    }
    forall t, k | t in r && k in r[t]
      ensures r[t][k] in Candidates(h', t, k)
    {
      CandidatesAdd(h, f, v, t, k);
      CandidateStep(targets, f, v, t, k);
    }
  }

  /** The keys grouped under `t` after one step: those known before, plus
      the key of `f` when `f` is a metadata field of `t`. */
  lemma MetaKeysStep(targets: map<string, map<string, string>>, f: string, v: string, t: string, known: set<string>)
    requires IsMetaEntry(f) ==> Decodable(f)
    requires t in targets ==> targets[t].Keys == known
    requires t !in targets ==> known == {}
    requires t in GroupStep(targets, f, v)
    ensures GroupStep(targets, f, v)[t].Keys ==
      known + (if Decodable(f) && MetaTarget(f) == t then {MetaKey(f)} else {})
  {
    if HasPrefix(f, TargetPrefix) {
      assert !Decodable(f);
    } else if HasPrefix(f, MetaPrefix) {
      assert Decodable(f);
    }
  }

  /** Every value grouped after one step was there before or is `v`, put
      under the target and key `f` decodes to. */
  lemma CandidateStep(targets: map<string, map<string, string>>, f: string, v: string, t: string, k: string)
    requires IsMetaEntry(f) ==> Decodable(f)
    requires t in GroupStep(targets, f, v) && k in GroupStep(targets, f, v)[t]
    ensures || (t in targets && k in targets[t] && GroupStep(targets, f, v)[t][k] == targets[t][k])
            || (Decodable(f) && MetaTarget(f) == t && MetaKey(f) == k && GroupStep(targets, f, v)[t][k] == v)
  {
  }

  lemma MetaFieldsAt(t: string, m: map<string, string>, k: string)
    requires k in m
    ensures MetaField(t, k) in MetaFields(t, m) && MetaFields(t, m)[MetaField(t, k)] == m[k]
  {
    MetaFieldInjective(t);
  }

  lemma MetaFieldsOnly(t: string, m: map<string, string>, f: string) returns (k: string)
    requires f in MetaFields(t, m)
    ensures k in m && f == MetaField(t, k)
  {
    k :| k in m && f == MetaField(t, k);
  }

  lemma MetaFieldsAdd(t: string, m: map<string, string>, k: string, v: string)
    requires k !in m
    ensures MetaFields(t, m[k := v]) == MetaFields(t, m)[MetaField(t, k) := v]
  {
    var m' := m[k := v];
    var a, b := MetaFields(t, m'), MetaFields(t, m)[MetaField(t, k) := v];
    forall f | f in a
      ensures f in b && a[f] == b[f]
    {
      var j := MetaFieldsOnly(t, m', f);
      MetaFieldsAt(t, m', j);
      if j != k {
        MetaFieldsAt(t, m, j);
        MetaFieldInjective(t);
      }
    }
    forall f | f in b
      ensures f in a
    {
      if f != MetaField(t, k) {
        var j := MetaFieldsOnly(t, m, f);
        MetaFieldsAt(t, m', j);
      } else {
        MetaFieldsAt(t, m', k);
      }
    }
  }

  /** Adding one metadata entry to an edge adds exactly its `meta:` field. */
  lemma RelationFieldsAdd(t: string, m: map<string, string>, k: string, v: string)
    requires k !in m
    ensures RelationFields(t, m[k := v]) == RelationFields(t, m)[MetaField(t, k) := v]
  {
    MetaFieldsAdd(t, m, k, v);
    TargetNotMeta(t, k);
  }

  lemma RelationFieldsOfNone(t: string)
    ensures RelationFields(t, map[]) == map[TargetField(t) := t]
  {
    assert MetaFields(t, map[]) == map[];
  }
}
