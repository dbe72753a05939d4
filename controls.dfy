/**
  Groups of selectable controls: the radio inputs of the theme switchers (whose
  `checked` flag is set) and the buttons of the main script (whose `active`
  class is toggled). Every "update active state" routine of the site walks such
  a group and turns a control on exactly when its key equals the current value.
 */
module Controls {

  /** One control: the value it stands for (a radio's `value`, a button's
      `data-theme`/`data-flavor`) and whether it is on. */
  datatype Control = Control(key: string, on: bool)

  /** `after` is `before` with exactly the controls whose key is `v` turned on. */
  ghost predicate MarkedFor(before: seq<Control>, after: seq<Control>, v: string)
  {
    && |after| == |before|
    && forall i :: 0 <= i < |after| ==> after[i].key == before[i].key && (after[i].on <==> after[i].key == v)
  }

  /** No key occurs twice. */
  predicate Distinct(keys: seq<string>)
  {
    forall i, j :: 0 <= i < j < |keys| ==> keys[i] != keys[j]
  }

  /** Control `k` is on and every other control is off. */
  ghost predicate OnlyOn(cs: seq<Control>, k: nat)
  {
    k < |cs| && cs[k].on && forall i :: 0 <= i < |cs| && i != k ==> !cs[i].on
  }

  /** Every control stands for one of `values`. */
  predicate KeysIn(cs: seq<Control>, values: seq<string>)
  {
    forall i :: 0 <= i < |cs| ==> cs[i].key in values
  }

  /** A fresh group: one control per key, all off. */
  function Unmarked(keys: seq<string>): (cs: seq<Control>)
    ensures |cs| == |keys|
    ensures forall i :: 0 <= i < |cs| ==> cs[i] == Control(keys[i], false)
  {
    seq(|keys|, i requires 0 <= i < |keys| => Control(keys[i], false))
  }

  /** The loop `controls.forEach(c => c.on = c.key === v)`. */
  method MarkMatching(controls: seq<Control>, v: string) returns (r: seq<Control>)
    ensures MarkedFor(controls, r, v)
  {
    r := controls;
    var i := 0;
    while i < |r|
      invariant 0 <= i <= |r| == |controls|
      invariant forall j :: 0 <= j < |r| ==> r[j].key == controls[j].key
      invariant forall j :: 0 <= j < i ==> (r[j].on <==> r[j].key == v)
    {
      r := r[i := r[i].(on := r[i].key == v)];
      i := i + 1;
    }
  }

  /** Marking keeps what every control stands for. */
  lemma MarkedForKeepsKeys(before: seq<Control>, after: seq<Control>, v: string, values: seq<string>)
    requires MarkedFor(before, after, v) && KeysIn(before, values)
    ensures KeysIn(after, values)
  {
    assert forall i :: 0 <= i < |after| ==> after[i].key == before[i].key;
  }

  /** Marking is determined by the keys: marking a marked group again changes nothing. */
  lemma MarkedForIdempotent(before: seq<Control>, after: seq<Control>, again: seq<Control>, v: string)
    requires MarkedFor(before, after, v) && MarkedFor(after, again, v)
    ensures again == after
  {
    assert |again| == |after|;
    forall i | 0 <= i < |after| ensures again[i] == after[i] {
      assert again[i].key == after[i].key;
    }
  }

  /** When the keys are distinct and `v` is one of them, exactly one control is on. */
  lemma MarkedForExactlyOne(before: seq<Control>, after: seq<Control>, v: string, k: nat)
    requires MarkedFor(before, after, v)
    requires forall i, j :: 0 <= i < j < |before| ==> before[i].key != before[j].key
    requires k < |before| && before[k].key == v
    ensures OnlyOn(after, k)
  {
    forall i | 0 <= i < |after| && i != k ensures !after[i].on {
      if i < k {
        assert before[i].key != before[k].key;
      } else {
        assert before[k].key != before[i].key;
      }
    }
  }

  /** Marking a fresh group with distinct keys turns on exactly one control
      when `v` is among the keys, and none otherwise. */
  lemma MarkedFreshGroup(keys: seq<string>, after: seq<Control>, v: string)
    requires Distinct(keys) && MarkedFor(Unmarked(keys), after, v)
    ensures v in keys ==> exists k :: OnlyOn(after, k)
    ensures v !in keys ==> forall i :: 0 <= i < |after| ==> !after[i].on
  {
    var group := Unmarked(keys);
    if v in keys {
      var k :| 0 <= k < |keys| && keys[k] == v;
      MarkedForExactlyOne(group, after, v, k);
    } else {
      forall i | 0 <= i < |after| ensures !after[i].on {
        assert after[i].key == keys[i];
      }
    }
  }
}
