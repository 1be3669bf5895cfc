// What the other modules share: the Option type, the int range, text cut to a buffer's room, counting set members.
module Wrappers {
  datatype Option<+T> = None | Some(value: T)

  const INT_MAX: int := 0x7FFF_FFFF
  const INT_MIN: int := -0x8000_0000

  /** What a buffer with room for `room` characters keeps of `s`. */
  function Cut(s: string, room: nat): string {
    if |s| <= room then s else s[..room]
  }

  function OneIf(b: bool): nat { if b then 1 else 0 }

  /** One member more or less, whether or not it was there before. */
  lemma MemberCount<T>(before: set<T>, after: set<T>, t: T, now: bool)
    requires after == if now then before + {t} else before - {t}
    ensures |after| == |before| - OneIf(t in before) + OneIf(now)
  {
    if t in before {
      assert before == (before - {t}) + {t};
      if now { assert after == before; }
    } else if !now {
      assert after == before;
    }
  }
}
