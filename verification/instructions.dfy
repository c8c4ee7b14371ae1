/**
 The button prompts of the instructional overlay: the declared list is
 reversed, disabled entries are dropped, and the rest are placed in
 consecutive data slots starting at 0. The scaleform calls that push each
 slot are host effects; only the slot contents are modelled.
 */
module Instructions {
  import opened Common

  /** One declared prompt: shown only when `enabled`. */
  datatype Button = Button(enabled: bool, text: string, key: Key)

  /** One filled data slot of the overlay. */
  datatype Slot = Slot(index: nat, text: string, key: Key)

  /** The prompts in declaration order; the rotate prompts follow the rotation switch. */
  function Buttons(cfg: Config): seq<Button> {
    [
      Button(true, "Previous", Left),
      Button(true, "Next", Right),
      Button(cfg.rotationEnabled, "Rotate Left", Q),
      Button(cfg.rotationEnabled, "Rotate Right", E),
      Button(true, "Close", X)
    ]
  }

  function Reverse<T>(xs: seq<T>): (r: seq<T>)
    ensures |r| == |xs|
    ensures forall i :: 0 <= i < |xs| ==> r[i] == xs[|xs| - 1 - i]
    decreases |xs|
  {
    if |xs| == 0 then [] else Reverse(xs[1..]) + [xs[0]]
  }

  /** The enabled buttons, in their original order. */
  function Enabled(bs: seq<Button>): (r: seq<Button>)
    ensures |r| <= |bs|
    ensures forall i :: 0 <= i < |r| ==> r[i].enabled
    decreases |bs|
  {
    if |bs| == 0 then []
    else (if bs[0].enabled then [bs[0]] else []) + Enabled(bs[1..])
  }

  /** A button is kept exactly when it is in the list and enabled. */
  lemma {:induction false} EnabledMembers(bs: seq<Button>, b: Button)
    ensures b in Enabled(bs) <==> b in bs && b.enabled
    decreases |bs|
  {
    if |bs| > 0 {
      EnabledMembers(bs[1..], b);
      assert bs == [bs[0]] + bs[1..];
    }
  }

  lemma {:induction false} EnabledAppend(a: seq<Button>, b: seq<Button>)
    ensures Enabled(a + b) == Enabled(a) + Enabled(b)
    decreases |a|
  {
    if |a| > 0 {
      assert (a + b)[1..] == a[1..] + b;
      EnabledAppend(a[1..], b);
    } else {
      assert a + b == b;
    }
  }

  lemma ReverseAppend<T>(a: seq<T>, b: seq<T>)
    ensures Reverse(a + b) == Reverse(b) + Reverse(a)
  {
  }

  /**
   Reversing and then filtering gives the same list as filtering and then
   reversing: the slots hold exactly the enabled buttons, last declared first.
   */
  lemma {:induction false} EnabledOfReverse(bs: seq<Button>)
    ensures Enabled(Reverse(bs)) == Reverse(Enabled(bs))
    decreases |bs|
  {
    if |bs| > 0 {
      var head := if bs[0].enabled then [bs[0]] else [];
      calc {
        Enabled(Reverse(bs));
        Enabled(Reverse(bs[1..]) + [bs[0]]);
        { EnabledAppend(Reverse(bs[1..]), [bs[0]]); }
        Enabled(Reverse(bs[1..])) + Enabled([bs[0]]);
        { EnabledOfReverse(bs[1..]); assert Enabled([bs[0]]) == head; }
        Reverse(Enabled(bs[1..])) + head;
        { assert Reverse(head) == head; }
        Reverse(Enabled(bs[1..])) + Reverse(head);
        { ReverseAppend(head, Enabled(bs[1..])); }
        Reverse(head + Enabled(bs[1..]));
        Reverse(Enabled(bs));
      }
    }
  }

  /** The `forEach((input, index) => …)` step: each button goes to the slot numbered by its position. */
  method NumberSlots(bs: seq<Button>) returns (slots: seq<Slot>)
    ensures |slots| == |bs|
    ensures forall i :: 0 <= i < |bs| ==> slots[i] == Slot(i, bs[i].text, bs[i].key)
  {
    slots := [];
    var i := 0;
    while i < |bs|
      invariant 0 <= i <= |bs|
      invariant |slots| == i
      invariant forall k :: 0 <= k < i ==> slots[k] == Slot(k, bs[k].text, bs[k].key)
    {
      slots := slots + [Slot(i, bs[i].text, bs[i].key)];
      i := i + 1;
    }
  }

  lemma EnabledCons(b: Button, bs: seq<Button>)
    ensures Enabled([b] + bs) == (if b.enabled then [b] else []) + Enabled(bs)
  {
  }

  /** The buttons that survive reversal and filtering, in slot order. */
  lemma ShownButtons(cfg: Config)
    ensures Enabled(Reverse(Buttons(cfg))) ==
      [Button(true, "Close", X)]
      + (if cfg.rotationEnabled
         then [Button(true, "Rotate Right", E), Button(true, "Rotate Left", Q)]
         else [])
      + [Button(true, "Next", Right), Button(true, "Previous", Left)]
  {
    var bs := Buttons(cfg);
    var b0, b1, b2, b3, b4 := bs[0], bs[1], bs[2], bs[3], bs[4];
    var l1 := [b0];
    var l2 := [b1] + l1;
    var l3 := [b2] + l2;
    var l4 := [b3] + l3;
    var l5 := [b4] + l4;
    assert Reverse(bs) == l5;
    EnabledCons(b0, []);
    assert l1 == [b0] + [];
    EnabledCons(b1, l1);
    EnabledCons(b2, l2);
    EnabledCons(b3, l3);
    EnabledCons(b4, l4);
  }

  /**
   The slots the overlay is given. "Close" always takes slot 0; with rotation
   on all five prompts are shown, with rotation off only Close, Next and
   Previous, in that order.
   */
  method InstructionSlots(cfg: Config) returns (slots: seq<Slot>)
    ensures forall i :: 0 <= i < |slots| ==> slots[i].index == i
    ensures |slots| > 0 && slots[0] == Slot(0, "Close", X)
    ensures cfg.rotationEnabled ==> slots == [
      Slot(0, "Close", X), Slot(1, "Rotate Right", E), Slot(2, "Rotate Left", Q),
      Slot(3, "Next", Right), Slot(4, "Previous", Left)]
    ensures !cfg.rotationEnabled ==> slots == [
      Slot(0, "Close", X), Slot(1, "Next", Right), Slot(2, "Previous", Left)]
  {
    var shown := Enabled(Reverse(Buttons(cfg)));
    ShownButtons(cfg);
    slots := NumberSlots(shown);
  }

  /** With the switches as shipped, no prompt is filtered out: all five reach the overlay. */
  lemma ShippedShowsAllPrompts()
    ensures |Enabled(Reverse(Buttons(SourceConfig)))| == 5
    ensures Enabled(Reverse(Buttons(SourceConfig))) == Reverse(Buttons(SourceConfig))
  {
    ShownButtons(SourceConfig);
  }
}
