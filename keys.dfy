/** Windows virtual-key codes the overlay reacts to, and the classifier
    that decides whether a key press counts as typing. */
module Keys {
  const VkBack := 0x08
  const VkTab := 0x09
  const VkReturn := 0x0D
  const VkShift := 0x10
  const VkControl := 0x11
  const VkMenu := 0x12
  const VkPause := 0x13
  const VkCapital := 0x14
  const VkEscape := 0x1B
  const VkSpace := 0x20
  const VkPrior := 0x21
  const VkNext := 0x22
  const VkLeft := 0x25
  const VkUp := 0x26
  const VkRight := 0x27
  const VkDown := 0x28
  const VkPrint := 0x2A
  const VkSnapshot := 0x2C
  const VkLWin := 0x5B
  const VkRWin := 0x5C
  const VkF1 := 0x70
  const VkF24 := 0x87
  const VkNumLock := 0x90
  const VkScroll := 0x91
  const VkLShift := 0xA0
  const VkRShift := 0xA1
  const VkLControl := 0xA2
  const VkRControl := 0xA3
  const VkLMenu := 0xA4
  const VkRMenu := 0xA5

  /** Whether a key press counts as typing: not a modifier (Shift, Ctrl,
      Alt in either hand, the Windows keys), not a function key F1 to F24,
      and not one of Print, Print Screen, Pause, Caps Lock, Num Lock and
      Scroll Lock. It rejects exactly the codes of the table NonTypingKeys. */
  predicate IsTypingKey(vk: int): (b: bool)
    ensures b <==> vk !in NonTypingKeys
  {
    if vk == VkShift || vk == VkControl || vk == VkMenu ||
       vk == VkLShift || vk == VkRShift ||
       vk == VkLControl || vk == VkRControl ||
       vk == VkLMenu || vk == VkRMenu ||
       vk == VkLWin || vk == VkRWin then false
    else if VkF1 <= vk <= VkF24 then false
    else if vk == VkPrint || vk == VkSnapshot ||
            vk == VkPause || vk == VkCapital ||
            vk == VkNumLock || vk == VkScroll then false
    else true
  }

  /** The non-typing keys written out as one table of codes: eleven
      modifiers, six lock and print keys, and the 24 function keys. */
  const NonTypingKeys: set<int> := {
    0x10, 0x11, 0x12, 0xA0, 0xA1, 0xA2, 0xA3, 0xA4, 0xA5, 0x5B, 0x5C,
    0x2A, 0x2C, 0x13, 0x14, 0x90, 0x91,
    0x70, 0x71, 0x72, 0x73, 0x74, 0x75, 0x76, 0x77, 0x78, 0x79, 0x7A, 0x7B,
    0x7C, 0x7D, 0x7E, 0x7F, 0x80, 0x81, 0x82, 0x83, 0x84, 0x85, 0x86, 0x87
  }

  /** Letters, digits, Space, Enter, Backspace, Tab, Escape and the arrows
      all count as typing. */
  lemma OrdinaryKeysType(vk: int)
    requires 0x41 <= vk <= 0x5A || 0x30 <= vk <= 0x39 ||
             vk in {VkSpace, VkReturn, VkBack, VkTab, VkEscape, VkLeft, VkUp, VkRight, VkDown}
    ensures IsTypingKey(vk)
  {
  }
}
