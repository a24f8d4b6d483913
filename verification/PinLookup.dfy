/** The conversions between pins and indices.  The lists for LEDs and for buttons are searched by the
    same loop, written out once here. */
module PinLookup {
  import opened Sequences
  import opened Words

  const NOT_FOUND: nat := 0xFFFFFFFF

  /** The sentinel is the greatest value of a uint32_t: it is one, and no other is greater. */
  lemma NotFoundIsGreatestWord(other: Word) returns (w: Word)
    ensures other as nat <= NOT_FOUND == w as nat
  {
    w := 0xFFFFFFFF;
  }

  /** The least index at or after `from` that holds the pin. */
  function FirstIndex(list: seq<nat>, pin: nat, from: nat): (ret: nat)
    requires from <= |list| <= NOT_FOUND
    ensures ret == NOT_FOUND <==> pin !in list[from..]
    ensures ret != NOT_FOUND ==> from <= ret < |list| && list[ret] == pin && pin !in list[from..ret]
    decreases |list| - from
  {
    if from == |list| then NOT_FOUND
    else if list[from] == pin then from
    else FirstIndex(list, pin, from + 1)
  }

  /** bsp_board_pin_to_led_idx and bsp_board_pin_to_button_idx.  The list is one that a uint32_t can
      index, or the sentinel would be an index; the result fits a uint32_t. */
  method PinToIdx(list: seq<nat>, pin: nat) returns (ret: nat)
    requires |list| <= 0xFFFFFFFF
    ensures ret == FirstIndex(list, pin, 0)
    ensures ret == 0xFFFFFFFF <==> pin !in list
    ensures ret != 0xFFFFFFFF ==> ret < |list| && list[ret] == pin && pin !in list[..ret]
    ensures ret <= 0xFFFFFFFF
  {
    ret := NOT_FOUND;
    var i := 0;
    while i < |list|
      invariant i <= |list|
      invariant pin !in list[..i]
      invariant FirstIndex(list, pin, 0) == FirstIndex(list, pin, i)
    {
      if list[i] == pin {
        return i;
      }
      i := i + 1;
    }
  }

  /** bsp_board_led_idx_to_pin and bsp_board_button_idx_to_pin; the ASSERT is the precondition. */
  function IdxToPin(list: seq<nat>, idx: nat): nat
    requires idx < |list|
  {
    list[idx]
  }

  /** Looking a pin up and going back gives the pin; going to a pin and looking it up gives the index,
      for every index, exactly on the lists without duplicates. */
  lemma LookupRoundTripExact(list: seq<nat>)
    requires |list| <= NOT_FOUND
    ensures forall pin :: pin in list ==>
              FirstIndex(list, pin, 0) < |list| && IdxToPin(list, FirstIndex(list, pin, 0)) == pin
    ensures (forall idx :: 0 <= idx < |list| ==> FirstIndex(list, IdxToPin(list, idx), 0) == idx) <==> Distinct(list)
  {
    if !Distinct(list) {
      var i, j :| 0 <= i < j < |list| && list[i] == list[j];
      assert IdxToPin(list, i) == IdxToPin(list, j);
    }
  }
}
