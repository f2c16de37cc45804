/** The sections of an a.out file, and where a link puts them. */
module LinkPlaces {

  /** The four things an a.out address can belong to. */
  datatype Sec = Text | Data | Bss | Abs

  /** A section in a link: its own vma, the vma of its output section, and its offset there. */
  datatype Place = Place(vma: int, outVma: int, outOffset: int) {
    function Out(): int {
      outVma + outOffset
    }

    function Move(): int {
      Out() - vma
    }

    /** An address of the section, moved to where the section goes. */
    function Moved(value: int): int {
      Out() + (value - vma)
    }
  }

  /** *ABS* never moves. */
  const ABSOLUTE := Place(0, 0, 0)
}
