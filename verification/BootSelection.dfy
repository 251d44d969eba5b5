/**
  Which software image the bootloader starts, over reboots: determine_boot_select and the reboot
  counters of bootloader/archive/boot_iobc_freertos.c.
 */
module BootSelection {
  import opened Wrappers

  type uint8 = n: nat | n < 0x100
  type uint16 = n: nat | n < 0x1_0000

  const FRAM_TRUE: nat := 1

  /** A reboot counter above this means that an image is not tried any more. */
  const MAX_REBOOTS: nat := 3

  datatype BootSelect =
    | BOOT_NOR_FLASH
    | BOOT_SD_CARD_0_SLOT_0 | BOOT_SD_CARD_0_SLOT_1
    | BOOT_SD_CARD_1_SLOT_0 | BOOT_SD_CARD_1_SLOT_1

  /** What the bootloader reads from the FRAM, as far as it decides. */
  datatype BootloaderGroup = BootloaderGroup(
    preferredSdCard: uint16, globalHammingFlag: uint16,
    norFlash: uint16, sdc0Slot0: uint16, sdc0Slot1: uint16, sdc1Slot0: uint16, sdc1Slot1: uint16,
    updateAvailable: uint8, updateInVolume0: uint8, updateInVolume1: uint8)

  datatype Decision = Decision(select: BootSelect, useHamming: bool)

  // ---------- what is promised ----------

  function RebootCounter(g: BootloaderGroup, b: BootSelect): uint16 {
    match b
    case BOOT_NOR_FLASH => g.norFlash
    case BOOT_SD_CARD_0_SLOT_0 => g.sdc0Slot0
    case BOOT_SD_CARD_0_SLOT_1 => g.sdc0Slot1
    case BOOT_SD_CARD_1_SLOT_0 => g.sdc1Slot0
    case BOOT_SD_CARD_1_SLOT_1 => g.sdc1Slot1
  }

  predicate Usable(g: BootloaderGroup, b: BootSelect) {
    RebootCounter(g, b) <= MAX_REBOOTS
  }

  function UpdateSlot(g: BootloaderGroup): seq<BootSelect> {
    if g.updateAvailable != FRAM_TRUE then []
    else if g.updateInVolume0 == FRAM_TRUE then [BOOT_SD_CARD_0_SLOT_1]
    else if g.updateInVolume1 == FRAM_TRUE then [BOOT_SD_CARD_1_SLOT_1]
    else []
  }

  /** The flash image, the image on the preferred SD card (0xff, 0 and 1 all mean card 0), and that on
      the other card. */
  function StandingImages(g: BootloaderGroup): seq<BootSelect> {
    [BOOT_NOR_FLASH] +
    (if g.preferredSdCard in {0xff, 0, 1} then [BOOT_SD_CARD_0_SLOT_0, BOOT_SD_CARD_1_SLOT_0]
     else [BOOT_SD_CARD_1_SLOT_0, BOOT_SD_CARD_0_SLOT_0])
  }

  /** The images in the order in which they are tried. */
  function Order(g: BootloaderGroup): seq<BootSelect> {
    UpdateSlot(g) + StandingImages(g)
  }

  /** The first usable image; if there is none, the flash image without error correction. */
  function FirstUsable(g: BootloaderGroup, order: seq<BootSelect>): Decision
    decreases |order|
  {
    if order == [] then Decision(BOOT_NOR_FLASH, false)
    else if Usable(g, order[0]) then Decision(order[0], g.globalHammingFlag == FRAM_TRUE)
    else FirstUsable(g, order[1..])
  }

  ghost predicate IsFallback(g: BootloaderGroup) {
    forall b :: b in Order(g) ==> !Usable(g, b)
  }

  // ---------- the code ----------

  /** determine_boot_select: if the FRAM cannot be read (None), it is marked as faulty. */
  method DetermineBootSelect(read: Option<BootloaderGroup>)
      returns (select: BootSelect, useHamming: bool, framFaulty: bool)
    ensures read.None? ==> framFaulty && select == BOOT_NOR_FLASH && !useHamming
    ensures read.Some? ==> !framFaulty && Decision(select, useHamming) == FirstUsable(read.value, Order(read.value))
  {
    var current := BOOT_NOR_FLASH;
    if read.None? {
      return BOOT_NOR_FLASH, false, true;
    }
    var info := read.value;
    framFaulty := false;
    if info.globalHammingFlag == FRAM_TRUE {
      useHamming := true;
    } else {
      useHamming := false;
    }
    UpdateComesFirst(info);
    StandingImagesInOrder(info);
    if info.updateAvailable == FRAM_TRUE {
      if info.updateInVolume0 == FRAM_TRUE {
        current := BOOT_SD_CARD_0_SLOT_1;
        if info.sdc0Slot1 > 3 {
          current := BOOT_NOR_FLASH;
        } else {
          return current, useHamming, false;
        }
      } else if info.updateInVolume1 == FRAM_TRUE {
        current := BOOT_SD_CARD_1_SLOT_1;
        if info.sdc1Slot1 > 3 {
          current := BOOT_NOR_FLASH;
        } else {
          return current, useHamming, false;
        }
      }
    }
    if info.norFlash > 3 {
      if info.preferredSdCard == 0xff || info.preferredSdCard == 1 || info.preferredSdCard == 0 {
        current := BOOT_SD_CARD_0_SLOT_0;
      } else {
        current := BOOT_SD_CARD_1_SLOT_0;
      }
    } else {
      return current, useHamming, false;
    }
    if current == BOOT_SD_CARD_0_SLOT_0 {
      if info.sdc0Slot0 > 3 {
        current := BOOT_SD_CARD_1_SLOT_0;
      } else {
        return current, useHamming, false;
      }
    } else {
      if info.sdc1Slot0 > 3 {
        current := BOOT_SD_CARD_0_SLOT_0;
      } else {
        return current, useHamming, false;
      }
    }
    if current == BOOT_SD_CARD_0_SLOT_0 {
      if info.sdc0Slot0 > 3 {
        useHamming := false;
        current := BOOT_NOR_FLASH;
      } else {
        return current, useHamming, false;
      }
    } else {
      if info.sdc1Slot0 > 3 {
        useHamming := false;
        current := BOOT_NOR_FLASH;
      } else {
        return current, useHamming, false;
      }
    }
    return current, useHamming, false;
  }

  lemma UpdateComesFirst(g: BootloaderGroup)
    ensures FirstUsable(g, Order(g)) ==
            if UpdateSlot(g) != [] && Usable(g, UpdateSlot(g)[0]) then
              Decision(UpdateSlot(g)[0], g.globalHammingFlag == FRAM_TRUE)
            else FirstUsable(g, StandingImages(g))
  {
    if UpdateSlot(g) == [] {
      assert Order(g) == StandingImages(g);
    } else {
      assert Order(g)[0] == UpdateSlot(g)[0] && Order(g)[1..] == StandingImages(g);
    }
  }

  lemma StandingImagesInOrder(g: BootloaderGroup)
    ensures var s, h := StandingImages(g), g.globalHammingFlag == FRAM_TRUE;
            && |s| == 3
            && FirstUsable(g, s) == if Usable(g, s[0]) then Decision(s[0], h)
                                    else if Usable(g, s[1]) then Decision(s[1], h)
                                    else if Usable(g, s[2]) then Decision(s[2], h)
                                    else Decision(BOOT_NOR_FLASH, false)
  {
    var s := StandingImages(g);
    assert |s| == 3;
    hide StandingImages;
    assert s[1..] == [s[1], s[2]] && s[1..][1..] == [s[2]] && s[1..][1..][1..] == [];
    assert FirstUsable(g, s[1..][1..][1..]) == Decision(BOOT_NOR_FLASH, false);
    assert !Usable(g, s[0]) && !Usable(g, s[1]) ==> FirstUsable(g, s) == FirstUsable(g, s[1..][1..]);
  }

  /** An update for card 0, or for card 1, that is to be tried. */
  predicate Updates0(g: BootloaderGroup) {
    g.updateAvailable == 1 && g.updateInVolume0 == 1 && g.sdc0Slot1 <= 3
  }

  predicate Updates1(g: BootloaderGroup) {
    g.updateAvailable == 1 && g.updateInVolume0 != 1 && g.updateInVolume1 == 1 && g.sdc1Slot1 <= 3
  }

  /** The decision in terms of the fields: which image is booted in exactly which cases. */
  lemma DecisionInFields(g: BootloaderGroup)
    ensures var d, standing := FirstUsable(g, Order(g)), !Updates0(g) && !Updates1(g);
            var card0First, exhausted := g.preferredSdCard in {0xff, 0, 1}, g.sdc0Slot0 > 3 && g.sdc1Slot0 > 3;
            && (d.select == BOOT_SD_CARD_0_SLOT_1 <==> Updates0(g))
            && (d.select == BOOT_SD_CARD_1_SLOT_1 <==> Updates1(g))
            && (d.select == BOOT_NOR_FLASH <==> standing && (g.norFlash <= 3 || exhausted))
            && (d.select == BOOT_SD_CARD_0_SLOT_0 <==>
                  standing && g.norFlash > 3 && g.sdc0Slot0 <= 3 && (card0First || g.sdc1Slot0 > 3))
            && (d.select == BOOT_SD_CARD_1_SLOT_0 <==>
                  standing && g.norFlash > 3 && g.sdc1Slot0 <= 3 && (!card0First || g.sdc0Slot0 > 3))
            && (d.useHamming <==> g.globalHammingFlag == 1 && !(standing && g.norFlash > 3 && exhausted))
  {
    hide FirstUsable;
    UpdateComesFirst(g);
    StandingImagesInOrder(g);
  }

  lemma CountedInFields(g: BootloaderGroup, b: BootSelect)
    ensures b == BOOT_NOR_FLASH ==> Incremented(g, b) == g.(norFlash := (g.norFlash + 1) % 0x1_0000)
    ensures b == BOOT_SD_CARD_0_SLOT_0 && g.sdc0Slot0 <= 3 ==> Incremented(g, b) == g.(sdc0Slot0 := g.sdc0Slot0 + 1)
    ensures b == BOOT_SD_CARD_0_SLOT_1 && g.sdc0Slot1 <= 3 ==> Incremented(g, b) == g.(sdc0Slot1 := g.sdc0Slot1 + 1)
    ensures b == BOOT_SD_CARD_1_SLOT_0 && g.sdc1Slot0 <= 3 ==> Incremented(g, b) == g.(sdc1Slot0 := g.sdc1Slot0 + 1)
    ensures b == BOOT_SD_CARD_1_SLOT_1 && g.sdc1Slot1 <= 3 ==> Incremented(g, b) == g.(sdc1Slot1 := g.sdc1Slot1 + 1)
  {
  }

  /** A boot without a fault of the FRAM counts in the field of the image that it chooses, and in no
      other one. */
  lemma BootInFields(g: BootloaderGroup)
    ensures var d := FirstUsable(g, Order(g));
            var h := Incremented(g, d.select);
            && (d.select == BOOT_NOR_FLASH ==> h == g.(norFlash := (g.norFlash + 1) % 0x1_0000))
            && (d.select == BOOT_SD_CARD_0_SLOT_0 ==> g.sdc0Slot0 <= 3 && h == g.(sdc0Slot0 := g.sdc0Slot0 + 1))
            && (d.select == BOOT_SD_CARD_0_SLOT_1 ==> g.sdc0Slot1 <= 3 && h == g.(sdc0Slot1 := g.sdc0Slot1 + 1))
            && (d.select == BOOT_SD_CARD_1_SLOT_0 ==> g.sdc1Slot0 <= 3 && h == g.(sdc1Slot0 := g.sdc1Slot0 + 1))
            && (d.select == BOOT_SD_CARD_1_SLOT_1 ==> g.sdc1Slot1 <= 3 && h == g.(sdc1Slot1 := g.sdc1Slot1 + 1))
  {
    hide FirstUsable, Order, Incremented, RebootCounter;
    DecisionInFields(g);
    CountedInFields(g, FirstUsable(g, Order(g)).select);
  }

  /** A new update is tried four times, and then no more. */
  lemma {:induction false} UpdateIsTriedFourTimes(g: BootloaderGroup, n: nat)
    requires g.updateAvailable == g.updateInVolume0 == 1 && g.sdc0Slot1 == 0 && n <= 4
    ensures AfterBoots(g, n) == g.(sdc0Slot1 := n)
    ensures NthBoot(g, n).select == BOOT_SD_CARD_0_SLOT_1 <==> n < 4
  {
    hide FirstUsable, Order, Incremented, RebootCounter;
    if n > 0 {
      UpdateIsTriedFourTimes(g, n - 1);
      BootInFields(AfterBoots(g, n - 1));
    }
    DecisionInFields(AfterBoots(g, n));
  }

  /** fram_increment_img_reboot_counter: the counters are 16 bits wide. */
  function Incremented(g: BootloaderGroup, b: BootSelect): BootloaderGroup {
    var next := (RebootCounter(g, b) + 1) % 0x1_0000;
    match b
    case BOOT_NOR_FLASH => g.(norFlash := next)
    case BOOT_SD_CARD_0_SLOT_0 => g.(sdc0Slot0 := next)
    case BOOT_SD_CARD_0_SLOT_1 => g.(sdc0Slot1 := next)
    case BOOT_SD_CARD_1_SLOT_0 => g.(sdc1Slot0 := next)
    case BOOT_SD_CARD_1_SLOT_1 => g.(sdc1Slot1 := next)
  }

  /** The FRAM, across reboots. */
  class Fram {
    var group: BootloaderGroup

    constructor (group: BootloaderGroup)
      ensures this.group == group
    {
      this.group := group;
    }

    method IncrementImgRebootCounter(b: BootSelect, writable: bool)
      modifies this
      ensures group == if writable then Incremented(old(group), b) else old(group)
    {
      if writable {
        var next := (RebootCounter(group, b) + 1) % 0x1_0000;
        match b
        case BOOT_NOR_FLASH => group := group.(norFlash := next);
        case BOOT_SD_CARD_0_SLOT_0 => group := group.(sdc0Slot0 := next);
        case BOOT_SD_CARD_0_SLOT_1 => group := group.(sdc0Slot1 := next);
        case BOOT_SD_CARD_1_SLOT_0 => group := group.(sdc1Slot0 := next);
        case BOOT_SD_CARD_1_SLOT_1 => group := group.(sdc1Slot1 := next);
      }
    }

    /** perform_iobc_copy_operation_to_sdram: an attempt to boot, which ends in the image or, if copying
        or checking it fails, in a restart; the image's counter goes up either way.  faulty: the FRAM
        is known to be faulty; readable, writable: its transfers succeed. */
    method Boot(faulty: bool, readable: bool, writable: bool, copies: bool) returns (d: Decision, restarts: bool)
      modifies this
      ensures d ==
        if faulty || !readable then Decision(BOOT_NOR_FLASH, false) else FirstUsable(old(group), Order(old(group)))
      ensures group == if writable then Incremented(old(group), d.select) else old(group)
      ensures restarts <==> !copies
    {
      var select, useHamming, framFaulty := BOOT_NOR_FLASH, false, faulty;
      if !framFaulty {
        select, useHamming, framFaulty := DetermineBootSelect(if readable then Some(group) else None);
      }
      d := Decision(select, useHamming);
      restarts := !copies;
      if select == BOOT_NOR_FLASH {
        IncrementImgRebootCounter(BOOT_NOR_FLASH, writable);
      } else {
        IncrementImgRebootCounter(select, writable);
      }
    }
  }

  // ---------- runs of reboots ----------

  /** How often an image will still be tried. */
  function TriesLeft(g: BootloaderGroup, b: BootSelect): nat {
    if Usable(g, b) then 4 - RebootCounter(g, b) else 0
  }

  function Total(g: BootloaderGroup, order: seq<BootSelect>): nat
    decreases |order|
  {
    if order == [] then 0 else TriesLeft(g, order[0]) + Total(g, order[1..])
  }

  /** The boots before the fallback. */
  function BootsLeft(g: BootloaderGroup): nat {
    Total(g, Order(g))
  }

  ghost predicate Distinct(order: seq<BootSelect>) {
    forall i, j :: 0 <= i < j < |order| ==> order[i] != order[j]
  }

  lemma OrderIsDistinct(g: BootloaderGroup)
    ensures Distinct(Order(g))
  {
  }

  lemma CountsUp(g: BootloaderGroup, b: BootSelect)
    ensures RebootCounter(Incremented(g, b), b) == (RebootCounter(g, b) + 1) % 0x1_0000
    ensures forall c :: c != b ==> RebootCounter(Incremented(g, b), c) == RebootCounter(g, c)
    ensures Order(Incremented(g, b)) == Order(g) && Incremented(g, b).globalHammingFlag == g.globalHammingFlag
  {
  }

  lemma {:induction false} TotalUnchanged(g: BootloaderGroup, b: BootSelect, order: seq<BootSelect>)
    requires b !in order
    ensures Total(Incremented(g, b), order) == Total(g, order)
    decreases |order|
  {
    hide Incremented, RebootCounter, Order;
    CountsUp(g, b);
    if order != [] { TotalUnchanged(g, b, order[1..]); }
  }

  /** The decision is for an image of the list, unless none of them has tries left; booting it takes one
      try from the total. */
  lemma {:induction false} BootTakesOneTry(g: BootloaderGroup, order: seq<BootSelect>)
    requires Distinct(order)
    ensures var d := FirstUsable(g, order);
            && (Total(g, order) == 0 <==> forall b :: b in order ==> !Usable(g, b))
            && (Total(g, order) == 0 ==> d == Decision(BOOT_NOR_FLASH, false))
            && (Total(g, order) > 0 ==> d.select in order && Usable(g, d.select)
                                        && d.useHamming == (g.globalHammingFlag == FRAM_TRUE)
                                        && Total(Incremented(g, d.select), order) == Total(g, order) - 1)
    decreases |order|
  {
    if order != [] {
      var rest := order[1..];
      BootTakesOneTry(g, rest);
      CountsUp(g, FirstUsable(g, order).select);
      if Usable(g, order[0]) { TotalUnchanged(g, order[0], rest); }
    }
    hide Incremented, RebootCounter, Order;
  }

  /** The state of the FRAM after n boots without a fault of the FRAM. */
  function AfterBoots(g: BootloaderGroup, n: nat): BootloaderGroup {
    if n == 0 then g else
    var h := AfterBoots(g, n - 1);
    Incremented(h, FirstUsable(h, Order(h)).select)
  }

  function NthBoot(g: BootloaderGroup, n: nat): Decision {
    FirstUsable(AfterBoots(g, n), Order(AfterBoots(g, n)))
  }

  lemma {:induction false} OrderIsKept(g: BootloaderGroup, n: nat)
    ensures Order(AfterBoots(g, n)) == Order(g)
    ensures AfterBoots(g, n).globalHammingFlag == g.globalHammingFlag
  {
    if n > 0 {
      OrderIsKept(g, n - 1);
      CountsUp(AfterBoots(g, n - 1), NthBoot(g, n - 1).select);
    }
    hide Incremented, Order;
  }

  /** What is known of a boot. */
  lemma BootFacts(g: BootloaderGroup)
    ensures var d := FirstUsable(g, Order(g));
            var h := Incremented(g, d.select);
            && (BootsLeft(g) == 0 <==> IsFallback(g))
            && (BootsLeft(g) == 0 ==> d == Decision(BOOT_NOR_FLASH, false))
            && (BootsLeft(g) > 0 ==> d.select in Order(g) && Usable(g, d.select) && BootsLeft(h) == BootsLeft(g) - 1)
            && Order(h) == Order(g)
  {
    OrderIsDistinct(g);
    BootTakesOneTry(g, Order(g));
    CountsUp(g, FirstUsable(g, Order(g)).select);
    hide Order, Incremented, FirstUsable, Total, Usable;
  }

  /** Exactly as many boots as there are tries left, for all images of the order together, come before
      the fallback: each of them takes one try. */
  lemma {:induction false} BootsBeforeFallback(g: BootloaderGroup, n: nat)
    requires n <= BootsLeft(g)
    ensures BootsLeft(AfterBoots(g, n)) == BootsLeft(g) - n
    ensures n < BootsLeft(g) ==>
              NthBoot(g, n).select in Order(g) && Usable(AfterBoots(g, n), NthBoot(g, n).select)
    ensures n == BootsLeft(g) ==> IsFallback(AfterBoots(g, n)) && NthBoot(g, n) == Decision(BOOT_NOR_FLASH, false)
  {
    hide Order, Incremented, FirstUsable, BootsLeft, Usable, IsFallback;
    if n > 0 {
      BootsBeforeFallback(g, n - 1);
      BootFacts(AfterBoots(g, n - 1));
    }
    OrderIsKept(g, n);
    BootFacts(AfterBoots(g, n));
  }

  /** The FRAM at the first boot that falls back. */
  function FallbackStart(g: BootloaderGroup): BootloaderGroup {
    AfterBoots(g, BootsLeft(g))
  }

  lemma FlashIsTried(g: BootloaderGroup)
    ensures BOOT_NOR_FLASH in Order(g)
  {
    assert Order(g)[|UpdateSlot(g)|] == BOOT_NOR_FLASH;
  }

  lemma CountingFlash(g: BootloaderGroup, c: uint16)
    requires IsFallback(g)
    ensures Order(g.(norFlash := c)) == Order(g)
    ensures c > MAX_REBOOTS ==> IsFallback(g.(norFlash := c))
    ensures c <= MAX_REBOOTS ==>
      FirstUsable(g.(norFlash := c), Order(g)) == Decision(BOOT_NOR_FLASH, g.globalHammingFlag == FRAM_TRUE)
  {
    var h := g.(norFlash := c);
    UpdateComesFirst(h);
    StandingImagesInOrder(h);
    if UpdateSlot(h) != [] { assert UpdateSlot(g)[0] in Order(g); }
  }

  /** From then on every boot falls back and counts the flash image's reboots, as long as this counter
      does not wrap around ... */
  lemma {:induction false} FallbackPersists(g: BootloaderGroup, n: nat)
    requires FallbackStart(g).norFlash + n < 0x1_0000
    ensures var h := AfterBoots(g, BootsLeft(g) + n);
            && h == FallbackStart(g).(norFlash := FallbackStart(g).norFlash + n)
            && IsFallback(h) && NthBoot(g, BootsLeft(g) + n) == Decision(BOOT_NOR_FLASH, false)
  {
    hide Order, FirstUsable, BootsLeft, Usable, IsFallback;
    var f, h := FallbackStart(g), AfterBoots(g, BootsLeft(g) + n);
    BootsBeforeFallback(g, BootsLeft(g));
    FlashIsExhausted(f);
    if n > 0 { FallbackPersists(g, n - 1); }
    CountingFlash(f, f.norFlash + n);
    BootFacts(h);
  }

  lemma FlashIsExhausted(g: BootloaderGroup)
    requires IsFallback(g)
    ensures g.norFlash > MAX_REBOOTS
  {
    FlashIsTried(g);
  }

  /** ... and exactly when it wraps around to zero, the flash image becomes usable again. */
  lemma FallbackEndsAtWrap(g: BootloaderGroup)
    ensures var n := BootsLeft(g) + (0x1_0000 - FallbackStart(g).norFlash);
            && AfterBoots(g, n) == FallbackStart(g).(norFlash := 0)
            && NthBoot(g, n) == Decision(BOOT_NOR_FLASH, g.globalHammingFlag == FRAM_TRUE)
  {
    hide Order, FirstUsable, BootsLeft, Usable, IsFallback;
    var f := FallbackStart(g);
    var last := 0xffff - f.norFlash;
    FallbackPersists(g, last);
    assert AfterBoots(g, BootsLeft(g) + last + 1) == Incremented(AfterBoots(g, BootsLeft(g) + last), BOOT_NOR_FLASH);
    OrderIsKept(g, BootsLeft(g));
    BootsBeforeFallback(g, BootsLeft(g));
    CountingFlash(f, 0);
  }

  /** Images are tried one after the other: a boot never goes back to an image before that of the boot
      before it in the order. */
  lemma TriedInOrder(g: BootloaderGroup, n: nat, i: nat)
    requires n + 1 < BootsLeft(g) && i <= |Order(g)|
    requires NthBoot(g, n).select !in Order(g)[..i]
    ensures NthBoot(g, n + 1).select !in Order(g)[..i]
  {
    hide Order, BootsLeft, Incremented, RebootCounter, FirstUsable;
    var h, k := AfterBoots(g, n), AfterBoots(g, n + 1);
    OrderIsKept(g, n);
    OrderIsKept(g, n + 1);
    BootsBeforeFallback(g, n + 1);
    CountsUp(h, NthBoot(g, n).select);
    SkippedAreUnusable(h, Order(g), i);
    forall b | b in Order(g)[..i]
      ensures !Usable(k, b)
    {
      assert !Usable(h, b);
    }
  }

  lemma {:induction false} SkippedAreUnusable(g: BootloaderGroup, order: seq<BootSelect>, i: nat)
    requires i <= |order| && FirstUsable(g, order).select !in order[..i]
    ensures forall b :: b in order[..i] ==> !Usable(g, b)
    decreases |order|
  {
    if i > 0 {
      assert order[..i] == [order[0]] + order[1..][..i-1];
      SkippedAreUnusable(g, order[1..], i - 1);
    }
  }

  // ---------- runs with a faulty FRAM ----------

  /** Whether the FRAM can be read and written at a boot. */
  datatype Transfers = Transfers(readable: bool, writable: bool)

  function Chosen(g: BootloaderGroup, f: Transfers): Decision {
    if f.readable then FirstUsable(g, Order(g)) else Decision(BOOT_NOR_FLASH, false)
  }

  function AfterBoot(g: BootloaderGroup, f: Transfers): BootloaderGroup {
    if f.writable then Incremented(g, Chosen(g, f).select) else g
  }

  /** The boots of a run that read the FRAM, did not fall back, and counted. */
  function CountedTries(g: BootloaderGroup, fs: seq<Transfers>): nat
    decreases |fs|
  {
    if fs == [] then 0
    else (if fs[0].readable && fs[0].writable && BootsLeft(g) > 0 then 1 else 0) +
         CountedTries(AfterBoot(g, fs[0]), fs[1..])
  }

  /** The boots of a run that could not read the FRAM, and yet took a try of the flash image. */
  function BlindTries(g: BootloaderGroup, fs: seq<Transfers>): nat
    decreases |fs|
  {
    if fs == [] then 0
    else (if !fs[0].readable && fs[0].writable && Usable(g, BOOT_NOR_FLASH) then 1 else 0) +
         BlindTries(AfterBoot(g, fs[0]), fs[1..])
  }

  function AfterAll(g: BootloaderGroup, fs: seq<Transfers>): BootloaderGroup
    decreases |fs|
  {
    if fs == [] then g else AfterAll(AfterBoot(g, fs[0]), fs[1..])
  }

  lemma {:induction false} FlashTry(g: BootloaderGroup, order: seq<BootSelect>)
    requires Distinct(order) && BOOT_NOR_FLASH in order && g.norFlash < 0xffff
    ensures Total(Incremented(g, BOOT_NOR_FLASH), order)
            == Total(g, order) - (if Usable(g, BOOT_NOR_FLASH) then 1 else 0)
    decreases |order|
  {
    CountsUp(g, BOOT_NOR_FLASH);
    if order[0] == BOOT_NOR_FLASH {
      TotalUnchanged(g, BOOT_NOR_FLASH, order[1..]);
    } else {
      FlashTry(g, order[1..]);
    }
  }

  /** A boot whose write fails costs no try; one that reads and writes takes one, if there is one; one
      that cannot read takes one of the flash image's. */
  lemma BootWithFaults(g: BootloaderGroup, f: Transfers)
    requires g.norFlash < 0xffff
    ensures var h := AfterBoot(g, f);
            && h.norFlash <= g.norFlash + 1 && Order(h) == Order(g)
            && BootsLeft(h) == BootsLeft(g) - (if !f.writable then 0
                                               else if f.readable then (if BootsLeft(g) > 0 then 1 else 0)
                                               else if Usable(g, BOOT_NOR_FLASH) then 1 else 0)
  {
    hide FirstUsable, Total, Order, IsFallback;
    if f.writable {
      CountsUp(g, Chosen(g, f).select);
      OrderIsDistinct(g);
      FlashIsTried(g);
      BootFacts(g);
      FlashTry(g, Order(g));
      if f.readable && BootsLeft(g) == 0 { FlashIsExhausted(g); }
    }
  }

  /** Along every run with any faults of the FRAM, as long as the flash counter does not wrap around:
      the tries that were left are those that were taken and those that are left now.  So never more
      boots that count come before the fallback than there were tries left at the start. */
  lemma {:induction false} TriesAreConserved(g: BootloaderGroup, fs: seq<Transfers>)
    requires g.norFlash + |fs| < 0x1_0000
    ensures CountedTries(g, fs) + BlindTries(g, fs) + BootsLeft(AfterAll(g, fs)) == BootsLeft(g)
    ensures CountedTries(g, fs) <= BootsLeft(g)
    decreases |fs|
  {
    hide BootsLeft, Usable, AfterBoot;
    if fs != [] {
      BootWithFaults(g, fs[0]);
      TriesAreConserved(AfterBoot(g, fs[0]), fs[1..]);
    }
  }
}
