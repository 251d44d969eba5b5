/**
  The preferred SD card in the FRAM, as the bootloader (bootloader/archive/boot_iobc_freertos.c) and as
  the access manager (bsp_sam9g20/memory/SDCAccessManager.cpp) read it.
 */
module PreferredCard {
  import opened BootSelection
  import opened SdCardAccess

  /** The card from which the bootloader starts if the flash image is not usable and both cards are. */
  function BootCard(g: BootloaderGroup): VolumeId {
    if StandingImages(g)[1] == BOOT_SD_CARD_0_SLOT_0 then SD_CARD_0
    else SD_CARD_1
  }

  /** The two choose the same card only where no card is preferred, or by chance where the last byte is
      1 and the number is not: of the values that mean a card, 1 makes the bootloader choose card 0 and
      the manager card 1, and 2 the reverse. */
  lemma SameCardExactly(g: BootloaderGroup)
    ensures var v := g.preferredSdCard;
            && (BootCard(g) == ActiveCardFor(v) <==> v in {0, 0xff} || (v % 0x100 == 1 && v != 1))
            && (v == 1 ==> BootCard(g) == SD_CARD_0 && ActiveCardFor(v) == SD_CARD_1)
            && (v == 2 ==> BootCard(g) == SD_CARD_1 && ActiveCardFor(v) == SD_CARD_0)
            && (v == 0x101 ==> BootCard(g) == ActiveCardFor(v) == SD_CARD_1)
  {
  }

  /** Were a VolumeId as wide as the number, 0x101 would pass the manager's test without being a volume,
      and only the numbers that mean no card would give the same card. */
  lemma SameVolumeWithWideIdsExactly(g: BootloaderGroup, idSize: nat)
    requires idSize >= 0x1_0000
    ensures VolumeFor(g.preferredSdCard, idSize) == (if BootCard(g) == SD_CARD_0 then 0 else 1)
            <==> g.preferredSdCard in {0, 0xff}
    ensures g.preferredSdCard == 0x101 ==> VolumeFor(g.preferredSdCard, idSize) == 0x101
  {
    hide VolumeFor;
    NumberFits(g.preferredSdCard, idSize);
  }

  lemma NumberFits(raw: nat, idSize: nat)
    requires raw < 0x1_0000 <= idSize
    ensures VolumeFor(raw, idSize) == if raw % 0x100 in {0, 1} then raw else 0
  {
    assert raw % idSize == raw;
  }

  /** If neither the update, where there is one, nor the flash image has tries left, but the image on
      BootCard has, the bootloader does start this one. */
  lemma BootCardIsBooted(g: BootloaderGroup)
    requires UpdateSlot(g) != [] ==> !Usable(g, UpdateSlot(g)[0])
    requires !Usable(g, BOOT_NOR_FLASH)
    requires Usable(g, StandingImages(g)[1])
    ensures FirstUsable(g, Order(g)).select
            == if BootCard(g) == SD_CARD_0 then BOOT_SD_CARD_0_SLOT_0
               else BOOT_SD_CARD_1_SLOT_0
  {
    UpdateComesFirst(g);
    StandingImagesInOrder(g);
  }
}
