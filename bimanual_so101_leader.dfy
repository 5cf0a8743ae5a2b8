/** The bimanual SO101 leader: two leader arms behind one teleoperator. Its
    maps are the two arms' maps with `left_` and `right_` prefixed to their
    keys; feedback is split back by prefix. Each arm is reduced to its
    connection and calibration flags. */
module BimanualLeader {
  import opened Wrappers
  import opened Json
  import opened Errors

  const LeftPrefix: string := "left_"
  const RightPrefix: string := "right_"

  // ---------------------------------------------------------------------
  // Strings

  predicate StartsWith(s: string, prefix: string)
  {
    |prefix| <= |s| && s[..|prefix|] == prefix
  }

  /** `pat` occurs in `s` at index `i`. */
  predicate OccursAt(s: string, pat: string, i: int)
  {
    0 <= i && i + |pat| <= |s| && s[i..i + |pat|] == pat
  }

  /** `pat` occurs somewhere in `s`. */
  ghost predicate Contains(s: string, pat: string)
  {
    exists i :: OccursAt(s, pat, i)
  }

  /** `s.replace(pat, "")`: every occurrence of `pat`, scanning left to right
      without overlap, is removed. */
  function ReplaceAll(s: string, pat: string): (r: string)
    requires |pat| > 0
    ensures |r| <= |s|
    decreases |s|
  {
    if |s| < |pat| then s
    else if s[..|pat|] == pat then ReplaceAll(s[|pat|..], pat)
    else [s[0]] + ReplaceAll(s[1..], pat)
  }

  /** Removing a pattern that occurs shortens the string. */
  lemma {:induction false} ReplaceAllShortens(s: string, pat: string)
    requires |pat| > 0 && Contains(s, pat)
    ensures |ReplaceAll(s, pat)| < |s|
    decreases |s|
  {
    var i :| OccursAt(s, pat, i);
    assert |pat| <= |s|;
    if s[..|pat|] != pat {
      ContainsTail(s, pat);
      ReplaceAllShortens(s[1..], pat);
    }
  }

  /** An occurrence that is not at the front is an occurrence in the tail. */
  lemma ContainsTail(s: string, pat: string)
    requires |pat| <= |s| && s[..|pat|] != pat
    ensures Contains(s, pat) ==> Contains(s[1..], pat)
  {
    if Contains(s, pat) {
      var i :| OccursAt(s, pat, i);
      assert s[0..0 + |pat|] == s[..|pat|];
      assert s[1..][i - 1..i - 1 + |pat|] == s[i..i + |pat|];
      assert OccursAt(s[1..], pat, i - 1);
    }
  }

  /** Removing a pattern that does not occur changes nothing. */
  lemma {:induction false} ReplaceAllAbsent(s: string, pat: string)
    requires |pat| > 0 && !Contains(s, pat)
    ensures ReplaceAll(s, pat) == s
    decreases |s|
  {
    if |s| >= |pat| {
      assert !OccursAt(s, pat, 0);
      assert s[0..0 + |pat|] == s[..|pat|];
      forall i | OccursAt(s[1..], pat, i) ensures false {
        assert s[1..][i..i + |pat|] == s[i + 1..i + 1 + |pat|];
        assert OccursAt(s, pat, i + 1);
      }
      ReplaceAllAbsent(s[1..], pat);
    }
  }

  /** Stripping the prefix of a prefixed key whose arm key does not contain
      the prefix gives back the arm key. */
  lemma ReplaceAllPrefixed(prefix: string, key: string)
    requires |prefix| > 0 && !Contains(key, prefix)
    ensures ReplaceAll(prefix + key, prefix) == key
  {
    assert (prefix + key)[..|prefix|] == prefix;
    assert (prefix + key)[|prefix|..] == key;
    ReplaceAllAbsent(key, prefix);
  }

  // ---------------------------------------------------------------------
  // Merging the two arms

  /** Putting the same prefix before two keys keeps them apart. */
  lemma PrefixInjective(prefix: string)
    ensures forall a: string, b: string :: prefix + a == prefix + b ==> a == b
  {
    forall a: string, b: string | prefix + a == prefix + b ensures a == b {
      assert a == (prefix + a)[|prefix|..];
      assert b == (prefix + b)[|prefix|..];
    }
  }

  /** The arm map with `prefix` put before every key. */
  function Prefixed<V>(m: map<string, V>, prefix: string): (r: map<string, V>)
    ensures forall k :: k in m ==> prefix + k in r && r[prefix + k] == m[k]
    ensures forall k :: k in r ==> exists a :: a in m && k == prefix + a
  {
    PrefixInjective(prefix);
    map k | k in m :: prefix + k := m[k]
  }

  /** Keys under `left_` and keys under `right_` never meet. */
  lemma PrefixesApart()
    ensures forall a: string, b: string :: LeftPrefix + a != RightPrefix + b
  {
    forall a: string, b: string ensures LeftPrefix + a != RightPrefix + b {
      assert (LeftPrefix + a)[0] == 'l';
      assert (RightPrefix + b)[0] == 'r';
    }
  }

  /** The combined map of `action_features` and `get_action`: the left arm's
      entries under `left_`, the right arm's under `right_`, nothing else. */
  function Merge<V>(left: map<string, V>, right: map<string, V>): (r: map<string, V>)
    ensures forall k :: k in left ==> LeftPrefix + k in r && r[LeftPrefix + k] == left[k]
    ensures forall k :: k in right ==> RightPrefix + k in r && r[RightPrefix + k] == right[k]
    ensures forall k :: k in r ==>
      (exists a :: a in left && k == LeftPrefix + a) || (exists b :: b in right && k == RightPrefix + b)
  {
    MergeLeftEntries(left, right);
    Prefixed(left, LeftPrefix) + Prefixed(right, RightPrefix)
  }

  /** The right arm's entries do not hide the left arm's. */
  lemma MergeLeftEntries<V>(left: map<string, V>, right: map<string, V>)
    ensures var r := Prefixed(left, LeftPrefix) + Prefixed(right, RightPrefix);
      forall k :: k in left ==> LeftPrefix + k in r && r[LeftPrefix + k] == left[k]
  {
  }

  /** Two maps with the same keys and the same value at each are equal. */
  lemma SameEntries<K, V>(m: map<K, V>, n: map<K, V>)
    requires forall k :: k in m ==> k in n && m[k] == n[k]
    requires forall k :: k in n ==> k in m
    ensures m == n
  {
  }

  /** An entry of the split is the arm's entry under the same key. */
  lemma SplitEntryOfArm(left: map<string, Value>, right: map<string, Value>,
                        items: seq<(string, Value)>, prefix: string, arm: map<string, Value>, k: string)
    requires forall i :: 0 <= i < |items| ==>
      items[i].0 in Merge(left, right) && Merge(left, right)[items[i].0] == items[i].1
    requires (prefix == LeftPrefix && arm == left) || (prefix == RightPrefix && arm == right)
    requires forall a :: a in arm ==> !Contains(a, prefix)
    requires k in Split(items, prefix)
    ensures k in arm && Split(items, prefix)[k] == arm[k]
  {
    SplitLastWins(items, prefix);
    var i :| LastFor(items, prefix, i, k) && Split(items, prefix)[k] == items[i].1;
    var key := items[i].0;
    MergedKeyOfArm(left, right, key, prefix, arm);
    ReplaceAllPrefixed(prefix, key[|prefix|..]);
  }

  /** Every key of the arm reaches the split. */
  lemma ArmKeyInSplit(left: map<string, Value>, right: map<string, Value>,
                      items: seq<(string, Value)>, prefix: string, arm: map<string, Value>, k: string)
    requires forall key :: key in Merge(left, right) ==> exists i :: 0 <= i < |items| && items[i].0 == key
    requires (prefix == LeftPrefix && arm == left) || (prefix == RightPrefix && arm == right)
    requires !Contains(k, prefix)
    requires k in arm
    ensures k in Split(items, prefix)
  {
    var pk := prefix + k;
    assert pk[..|prefix|] == prefix;
    assert pk in Merge(left, right);
    var i :| 0 <= i < |items| && items[i].0 == pk;
    assert StartsWith(items[i].0, prefix);
    ReplaceAllPrefixed(prefix, k);
    assert ReplaceAll(items[i].0, prefix) in Split(items, prefix);
  }

  /** The entries of `m` whose keys are in `keys`. */
  function Restrict<V>(m: map<string, V>, keys: set<string>): map<string, V>
  {
    map k | k in m && k in keys :: m[k]
  }

  /** Taking one more key of `m` adds its entry. */
  lemma RestrictGrow<V>(m: map<string, V>, keys: set<string>, key: string)
    requires key in m
    ensures Restrict(m, keys + {key}) == Restrict(m, keys)[key := m[key]]
  {
  }

  /** Prefixing commutes with adding an entry. */
  lemma PrefixedUpdate<V>(m: map<string, V>, prefix: string, key: string, v: V)
    ensures Prefixed(m[key := v], prefix) == Prefixed(m, prefix)[prefix + key := v]
  {
  }

  /** Taking every key of `m` gives `m`. */
  lemma RestrictAll<V>(m: map<string, V>)
    ensures Restrict(m, m.Keys) == m
  {
  }

  /** One iteration of a prefixing loop: one more key of the arm is copied. */
  lemma PrefixedRestrictGrow<V>(m: map<string, V>, keys: set<string>, key: string, prefix: string)
    requires key in m
    ensures Prefixed(Restrict(m, keys + {key}), prefix) == Prefixed(Restrict(m, keys), prefix)[prefix + key := m[key]]
  {
    RestrictGrow(m, keys, key);
    PrefixedUpdate(Restrict(m, keys), prefix, key, m[key]);
  }

  /** Before a prefixing loop starts, it has added nothing. */
  lemma NothingTaken<V>(base: map<string, V>, m: map<string, V>, prefix: string)
    ensures base + Prefixed(Restrict(m, {}), prefix) == base
  {
  }

  lemma EmptyUnion<V>(m: map<string, V>)
    ensures map[] + m == m
  {
  }

  /** Adding an entry to the right operand of a union adds it to the union. */
  lemma UnionUpdate<V>(a: map<string, V>, b: map<string, V>, k: string, v: V)
    ensures (a + b)[k := v] == a + b[k := v]
  {
  }

  lemma MergeIsUnion<V>(left: map<string, V>, right: map<string, V>)
    ensures Merge(left, right) == Prefixed(left, LeftPrefix) + Prefixed(right, RightPrefix)
  {
  }

  /** Copying the keys in `keys` under a prefix gives one entry per key. */
  lemma {:induction false} PrefixedRestrictSize<V>(m: map<string, V>, keys: set<string>, prefix: string)
    requires keys <= m.Keys
    ensures |Prefixed(Restrict(m, keys), prefix)| == |keys|
    decreases keys
  {
    if keys != {} {
      var key :| key in keys;
      var rest := keys - {key};
      PrefixedRestrictSize(m, rest, prefix);
      assert rest + {key} == keys;
      PrefixedRestrictGrow(m, rest, key, prefix);
      PrefixInjective(prefix);
      assert prefix + key !in Prefixed(Restrict(m, rest), prefix);
    }
  }

  /** No entry is lost in the merge: it has as many entries as both arms. */
  lemma MergeSize<V>(left: map<string, V>, right: map<string, V>)
    ensures |Merge(left, right)| == |left| + |right|
  {
    var l := Prefixed(left, LeftPrefix);
    var rt := Prefixed(right, RightPrefix);
    PrefixedRestrictSize(left, left.Keys, LeftPrefix);
    PrefixedRestrictSize(right, right.Keys, RightPrefix);
    RestrictAll(left);
    RestrictAll(right);
    MergeIsUnion(left, right);
    PrefixesApart();
    assert l.Keys * rt.Keys == {};
    assert (l + rt).Keys == l.Keys + rt.Keys;
  }

  /** One `for` loop of `action_features` or `get_action`: every entry of
      the arm is copied into `combined` under `prefix`. */
  method CopyPrefixed<V>(combined: map<string, V>, arm: map<string, V>, prefix: string)
    returns (out: map<string, V>)
    ensures out == combined + Prefixed(arm, prefix)
  {
    out := combined;
    var done: set<string> := {};
    NothingTaken(combined, arm, prefix);
    while done != arm.Keys
      invariant done <= arm.Keys
      invariant out == combined + Prefixed(Restrict(arm, done), prefix)
      decreases arm.Keys - done
    {
      var key :| key in arm && key !in done;
      PrefixedRestrictGrow(arm, done, key, prefix);
      UnionUpdate(combined, Prefixed(Restrict(arm, done), prefix), prefix + key, arm[key]);
      out := out[prefix + key := arm[key]];
      done := done + {key};
    }
    RestrictAll(arm);
  }

  /** Both loops: the left arm's keys first, under `left_`, then the right
      arm's, under `right_`, into one dictionary. */
  method Combine<V>(left: map<string, V>, right: map<string, V>) returns (combined: map<string, V>)
    ensures combined == Merge(left, right)
  {
    combined := CopyPrefixed(map[], left, LeftPrefix);
    combined := CopyPrefixed(combined, right, RightPrefix);
    MergeIsUnion(left, right);
    EmptyUnion(Prefixed(left, LeftPrefix));
  }

  // ---------------------------------------------------------------------
  // Splitting feedback

  /** One arm's share of a feedback dictionary given as its items in order:
      every item whose key starts with `prefix`, under its key with every
      occurrence of `prefix` removed. Later items overwrite earlier ones. */
  function Split(items: seq<(string, Value)>, prefix: string): (r: map<string, Value>)
    requires |prefix| > 0
    ensures forall i :: 0 <= i < |items| && StartsWith(items[i].0, prefix) ==> ReplaceAll(items[i].0, prefix) in r
    ensures forall k :: k in r ==> exists i :: 0 <= i < |items| && StartsWith(items[i].0, prefix) && ReplaceAll(items[i].0, prefix) == k
    decreases |items|
  {
    if items == [] then map[]
    else
      var rest := Split(items[..|items| - 1], prefix);
      var (k, v) := items[|items| - 1];
      if StartsWith(k, prefix) then rest[ReplaceAll(k, prefix) := v] else rest
  }

  /** Item `i` is for the arm of `prefix`, its key strips to `k`, and no later
      item for that arm strips to `k`. */
  predicate LastFor(items: seq<(string, Value)>, prefix: string, i: int, k: string)
    requires |prefix| > 0
  {
    && 0 <= i < |items|
    && StartsWith(items[i].0, prefix)
    && ReplaceAll(items[i].0, prefix) == k
    && forall j :: i < j < |items| && StartsWith(items[j].0, prefix) ==> ReplaceAll(items[j].0, prefix) != k
  }

  /** If no item after index `i` satisfies `p`, that stays so when the last
      item, which fails `p`, is counted too. */
  lemma LastStaysLast<T>(xs: seq<T>, p: T -> bool, i: int)
    requires 0 <= i < |xs| - 1
    requires forall j :: i < j < |xs| - 1 ==> !p(xs[j])
    requires !p(xs[|xs| - 1])
    ensures forall j :: i < j < |xs| ==> !p(xs[j])
  {
    forall j | i < j < |xs|
      ensures !p(xs[j])
    {
      if j == |xs| - 1 {
        assert xs[j] == xs[|xs| - 1];
      }
    }
  }

  /** An item that is last for `k` stays last when an item that does not
      strip to `k` is appended. */
  lemma LastForExtends(items: seq<(string, Value)>, prefix: string, i: int, k: string)
    requires |prefix| > 0 && |items| > 0
    requires LastFor(items[..|items| - 1], prefix, i, k)
    requires !(StartsWith(items[|items| - 1].0, prefix) && ReplaceAll(items[|items| - 1].0, prefix) == k)
    ensures LastFor(items, prefix, i, k) && items[i] == items[..|items| - 1][i]
  {
    var init := items[..|items| - 1];
    var stripsToK := (item: (string, Value)) => StartsWith(item.0, prefix) && ReplaceAll(item.0, prefix) == k;
    forall j | i < j < |items| - 1
      ensures !stripsToK(items[j])
    {
      assert init[j] == items[j];
    }
    LastStaysLast(items, stripsToK, i);
  }

  /** The split holds a key for every item of the arm, and each of its keys
      carries the value of the last item that strips to it. */
  lemma {:induction false} SplitLastWins(items: seq<(string, Value)>, prefix: string)
    requires |prefix| > 0
    ensures forall i :: 0 <= i < |items| && StartsWith(items[i].0, prefix) ==>
      ReplaceAll(items[i].0, prefix) in Split(items, prefix)
    ensures forall k :: k in Split(items, prefix) ==>
      exists i :: LastFor(items, prefix, i, k) && Split(items, prefix)[k] == items[i].1
    decreases |items|
  {
    if items != [] {
      var n := |items|;
      var init := items[..n - 1];
      SplitLastWins(init, prefix);
      var rest := Split(init, prefix);
      var r := Split(items, prefix);
      var (key, v) := items[n - 1];
      forall k | k in r
        ensures exists i :: LastFor(items, prefix, i, k) && r[k] == items[i].1
      {
        if StartsWith(key, prefix) && ReplaceAll(key, prefix) == k {
          assert LastFor(items, prefix, n - 1, k);
        } else {
          assert k in rest && r[k] == rest[k];
          var i :| LastFor(init, prefix, i, k) && rest[k] == init[i].1;
          LastForExtends(items, prefix, i, k);
        }
      }
    }
  }

  /** `items` lists the dictionary `d` in some order, each key once. */
  predicate ItemsOf(items: seq<(string, Value)>, d: map<string, Value>)
  {
    && (forall i, j :: 0 <= i < j < |items| ==> items[i].0 != items[j].0)
    && (forall i :: 0 <= i < |items| ==> items[i].0 in d && d[items[i].0] == items[i].1)
    && (forall k :: k in d ==> exists i :: 0 <= i < |items| && items[i].0 == k)
  }

  /** A merged key that starts with `prefix` is the prefixed form of a key of
      the arm that `prefix` names. */
  lemma MergedKeyOfArm(left: map<string, Value>, right: map<string, Value>,
                       key: string, prefix: string, arm: map<string, Value>)
    requires key in Merge(left, right)
    requires (prefix == LeftPrefix && arm == left) || (prefix == RightPrefix && arm == right)
    requires StartsWith(key, prefix)
    ensures key == prefix + key[|prefix|..]
    ensures key[|prefix|..] in arm && Merge(left, right)[key] == arm[key[|prefix|..]]
  {
    var merged := Merge(left, right);
    if a :| a in left && key == LeftPrefix + a {
      assert (LeftPrefix + a)[|LeftPrefix|..] == a;
      assert prefix == LeftPrefix by {
        assert key[0] == 'l';
        assert key[..|prefix|][0] == prefix[0];
      }
    } else {
      var b :| b in right && key == RightPrefix + b;
      assert (RightPrefix + b)[|RightPrefix|..] == b;
      assert prefix == RightPrefix by {
        assert key[0] == 'r';
        assert key[..|prefix|][0] == prefix[0];
      }
    }
  }

  /** Splitting the merged map of two arms by `prefix` recovers the arm that
      `prefix` names, provided none of the arm's own keys contains `prefix`,
      in whatever order the merged dictionary is iterated. */
  lemma SplitRecoversArm(left: map<string, Value>, right: map<string, Value>,
                         items: seq<(string, Value)>, prefix: string, arm: map<string, Value>)
    requires ItemsOf(items, Merge(left, right))
    requires (prefix == LeftPrefix && arm == left) || (prefix == RightPrefix && arm == right)
    requires forall k :: k in arm ==> !Contains(k, prefix)
    ensures Split(items, prefix) == arm
  {
    var split := Split(items, prefix);
    forall k | k in split
      ensures k in arm && split[k] == arm[k]
    {
      SplitEntryOfArm(left, right, items, prefix, arm, k);
    }
    forall k | k in arm
      ensures k in split
    {
      ArmKeyInSplit(left, right, items, prefix, arm, k);
    }
    SameEntries(split, arm);
  }

  /** Every occurrence of the prefix is removed, not just the leading one:
      feedback key `left_a_left_b` reaches the left arm as `a_b`. */
  lemma SplitRemovesEveryOccurrence(v: Value)
    ensures Split([("left_a_left_b", v)], LeftPrefix) == map["a_b" := v]
  {
    var key := "left_a_left_b";
    assert key[..5] == LeftPrefix;
    assert key[5..] == "a_left_b";
    assert "a_left_b"[..5][0] == 'a';
    assert "a_left_b"[1..] == "_left_b";
    assert "_left_b"[..5][0] == '_';
    assert "_left_b"[1..] == "left_b";
    assert "left_b"[..5] == LeftPrefix;
    assert "left_b"[5..] == "b";
    assert ReplaceAll("left_b", LeftPrefix) == "b";
    assert ReplaceAll("_left_b", LeftPrefix) == "_b";
    assert ReplaceAll("a_left_b", LeftPrefix) == "a_b";
    assert ReplaceAll(key, LeftPrefix) == "a_b";
    assert StartsWith(key, LeftPrefix);
  }

  // ---------------------------------------------------------------------
  // The teleoperator

  /** A feature's Python type, by name. */
  datatype PyType = PyType(name: string)

  class BimanualSO101Leader {
    /** The two arms' `action_features`. */
    const leftFeatures: map<string, PyType>
    const rightFeatures: map<string, PyType>
    var leftConnected: bool
    var rightConnected: bool
    var leftCalibrated: bool
    var rightCalibrated: bool
    /** The feedback each arm was last sent. */
    var leftFeedback: map<string, Value>
    var rightFeedback: map<string, Value>

    constructor (leftFeatures: map<string, PyType>, rightFeatures: map<string, PyType>,
                 leftCalibrated: bool, rightCalibrated: bool)
      ensures this.leftFeatures == leftFeatures && this.rightFeatures == rightFeatures
      ensures this.leftCalibrated == leftCalibrated && this.rightCalibrated == rightCalibrated
      ensures !leftConnected && !rightConnected
      ensures leftFeedback == map[] && rightFeedback == map[]
    {
      this.leftFeatures := leftFeatures;
      this.rightFeatures := rightFeatures;
      this.leftCalibrated := leftCalibrated;
      this.rightCalibrated := rightCalibrated;
      leftConnected := false;
      rightConnected := false;
      leftFeedback := map[];
      rightFeedback := map[];
    }

    /** `action_features`: the arms' features under their prefixes. */
    method ActionFeatures() returns (r: map<string, PyType>)
      ensures r == Merge(leftFeatures, rightFeatures)
    {
      r := Combine(leftFeatures, rightFeatures);
    }

    /** The teleoperator takes no feedback features. */
    function FeedbackFeatures(): (r: map<string, PyType>)
      ensures |r| == 0
    {
      map[]
    }

    function IsConnected(): (r: bool)
      reads this
      ensures r <==> leftConnected && rightConnected
    {
      leftConnected && rightConnected
    }

    function IsCalibrated(): (r: bool)
      reads this
      ensures r <==> leftCalibrated && rightCalibrated
    {
      leftCalibrated && rightCalibrated
    }

    /** `get_action`, given what each arm's `get_action` returned. */
    method GetAction(leftAction: map<string, Value>, rightAction: map<string, Value>)
      returns (r: map<string, Value>)
      ensures r == Merge(leftAction, rightAction)
    {
      r := Combine(leftAction, rightAction);
    }

    /** `send_feedback`, for a feedback dictionary given as its items. */
    method SendFeedback(items: seq<(string, Value)>)
      modifies this`leftFeedback, this`rightFeedback
      ensures leftFeedback == Split(items, LeftPrefix)
      ensures rightFeedback == Split(items, RightPrefix)
    {
      leftFeedback := Split(items, LeftPrefix);
      rightFeedback := Split(items, RightPrefix);
    }

    /** `connect(calibrate)`: `calibrate` is handed on to each arm's own
        `connect`, which may calibrate the arm. What an arm's calibration
        ends up as is not visible here, so both calibration flags are in the
        frame and left unconstrained when the arms are connected. */
    method Connect(calibrate: bool) returns (r: Outcome<DeviceError>)
      modifies this`leftConnected, this`rightConnected, this`leftCalibrated, this`rightCalibrated
      ensures old(IsConnected()) ==> r == Fail(DeviceAlreadyConnected) && unchanged(this)
      ensures !old(IsConnected()) ==> r == Pass && leftConnected && rightConnected
    {
      if IsConnected() {
        return Fail(DeviceAlreadyConnected);
      }
      leftConnected := true;
      rightConnected := true;
      r := Pass;
    }

    method Disconnect() returns (r: Outcome<DeviceError>)
      modifies this`leftConnected, this`rightConnected
      ensures !old(IsConnected()) ==> r == Fail(DeviceNotConnected) && unchanged(this)
      ensures old(IsConnected()) ==> r == Pass && !leftConnected && !rightConnected
    {
      if !IsConnected() {
        return Fail(DeviceNotConnected);
      }
      leftConnected := false;
      rightConnected := false;
      r := Pass;
    }
  }
}
