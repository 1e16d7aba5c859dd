/** What `!` means for a logical key, from `replace_not_key` of
    `src/config/ParseConfig.cpp` to the matcher. */
module LoweredInputs {
  import opened Keys
  import opened Matcher
  import opened HeldKeys
  import Lowering
  import MT = MatcherTheorems

  /** Each `!both` gives way to `!left !right` at its place. */
  lemma {:induction false} NotReplacedAt(a: KeySequence, both: Key, left: Key, right: Key, b: KeySequence)
    ensures Lowering.ReplaceNot(a + ([KeyEvent(both, Not, 0)] + b), both, left, right)
      == Lowering.ReplaceNot(a, both, left, right) + ([KeyEvent(left, Not, 0), KeyEvent(right, Not, 0)] + Lowering.ReplaceNot(b, both, left, right))
    decreases |a|
  {
    var rest := [KeyEvent(both, Not, 0)] + b;
    if a == [] {
      assert a + rest == rest && rest[1..] == b;
      assert [] + Lowering.ReplaceNot(rest, both, left, right) == Lowering.ReplaceNot(rest, both, left, right);
    } else {
      assert (a + rest)[1..] == a[1..] + rest;
      NotReplacedAt(a[1..], both, left, right, b);
      var first := if a[0].state == Not && a[0].key == both then [KeyEvent(left, Not, 0), a[0].(key := right)] else [a[0]];
      Associative(first, Lowering.ReplaceNot(a[1..], both, left, right),
                  [KeyEvent(left, Not, 0), KeyEvent(right, Not, 0)] + Lowering.ReplaceNot(b, both, left, right));
    }
  }

  /** So an input that forbids a logical key is matched only while neither of its keys is
      pressed: `!Shift A` while neither Shift is down. */
  lemma NotLogicalKeyForbidsBoth(ex: KeySequence, both: Key, left: Key, right: Key, sq: RealEvents, optional: bool)
    requires left != TIMEOUT && right != TIMEOUT
    requires var lowered := Lowering.ReplaceNot([KeyEvent(both, Not, 0)] + ex, both, left, right);
      lowered != [] ==> NotDemanded(lowered, 0, left) && NotDemanded(lowered, 0, right)
    ensures Lowering.ReplaceNot([KeyEvent(both, Not, 0)] + ex, both, left, right) != []
    ensures Matching(Lowering.ReplaceNot([KeyEvent(both, Not, 0)] + ex, both, left, right), sq, optional).result == Match ==>
      NoPressFrom(sq, 0, left) && NoPressFrom(sq, 0, right)
  {
    NotReplacedAt([], both, left, right, ex);
    var input := [KeyEvent(both, Not, 0)] + ex;
    assert [] + input == input;
    var lowered := Lowering.ReplaceNot(input, both, left, right);
    var pair := [KeyEvent(left, Not, 0), KeyEvent(right, Not, 0)];
    assert [] + (pair + Lowering.ReplaceNot(ex, both, left, right)) == pair + Lowering.ReplaceNot(ex, both, left, right);
    assert lowered[0] == KeyEvent(left, Not, 0) && lowered[1] == KeyEvent(right, Not, 0);
    hide Lowering.ReplaceNot;
    if Matching(lowered, sq, optional).result == Match {
      NotMeansNotPressed(lowered, sq, optional, 0);
      NotMeansNotPressed(lowered, sq, optional, 1);
      NotIsForbidden(lowered, sq, optional, START, left);
      assert ReadUpTo(lowered, sq, optional, START, 1) == 0;
    }
  }

  // ---------------------------------------------------------------------------
  // A logical key in an input

  function RenamedKeys(keys: seq<Key>, both: Key, key: Key): (r: seq<Key>)
    ensures |r| == |keys| && forall i :: 0 <= i < |r| ==> r[i] == if keys[i] == both then key else keys[i]
  {
    seq(|keys|, i requires 0 <= i < |keys| => if keys[i] == both then key else keys[i])
  }

  lemma SuccessiveRenamed(keys: seq<Key>, both: Key, key: Key)
    ensures Lowering.ReplaceKey(MT.SuccessiveExpression(keys), both, key) == MT.SuccessiveExpression(RenamedKeys(keys, both, key))
  {
    hide MT.SuccessiveExpression;
    var s, r := MT.SuccessiveExpression(keys), MT.SuccessiveExpression(RenamedKeys(keys, both, key));
    forall i | 0 <= i < |s| ensures r[i] == s[i].(key := Lowering.Renamed(s[i].key, both, key)) {
      assert s[2 * (i / 2)] == Press(keys[i / 2]) && s[2 * (i / 2) + 1] == KeyEvent(keys[i / 2], UpAsync, 0);
      assert r[2 * (i / 2)].state == Down && r[2 * (i / 2) + 1].state == UpAsync;
    }
  }

  predicate Typeable(keys: seq<Key>) { keys != [] && MT.DeviceKeys(keys) && MT.Distinct(keys) }

  /** `k1 ... kn` with a logical key becomes two inputs; one of them matches a typing if and
      only if the keys are pressed in order, with the left or the right key in its place. */
  lemma LogicalKeyMatchesEither(keys: seq<Key>, both: Key, left: Key, right: Key, sq: RealEvents, optional: bool)
    requires Typeable(RenamedKeys(keys, both, left)) && Typeable(RenamedKeys(keys, both, right)) && MT.Typing(sq)
    ensures var ex := MT.SuccessiveExpression(keys);
      var l, r := Lowering.ReplaceKey(ex, both, left), Lowering.ReplaceKey(ex, both, right);
      && l != [] && r != []
      && ((Matching(l, sq, optional).result == Match || Matching(r, sq, optional).result == Match)
          <==> MT.Downs(sq) in {RenamedKeys(keys, both, left), RenamedKeys(keys, both, right)})
  {
    hide MT.SuccessiveExpression, MT.Typing, Matching, Lowering.ReplaceKey;
    SuccessiveRenamed(keys, both, left);
    SuccessiveRenamed(keys, both, right);
    MT.SuccessiveKeysInOrder(RenamedKeys(keys, both, left), sq, optional);
    MT.SuccessiveKeysInOrder(RenamedKeys(keys, both, right), sq, optional);
  }
}
