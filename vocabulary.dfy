/** The names of defect categories and levels, and the two slot layouts.
    include/via.hpp with src/via.cpp and include/ibox.hpp with
    src/ibox_via.cpp differ only in which slot a category name selects;
    src/via.cpp and src/ibox.cpp render slot numbers with the same table. */
module Vocabulary {
  import opened FaultCode

  /** Which copy of the code: the via namespace or the ibox namespace. */
  datatype Variant = Via | Ibox

  /** kArrTypeStr, indexed by slot, in both src/via.cpp and src/ibox.cpp. */
  const TypeNames: seq<string> :=
    ["bump", "crack", "depression", "displacement", "vegetation", "uneven", "pothole"]

  /** kArrLevelStr, indexed by level. */
  const LevelNames: seq<string> := ["", "fair", "poor", "verypoor"]

  /** The FaultType enumerators after NONE, in declaration order: the keys of
      kMapType in the order of their values 1..7. */
  function CategoryNames(v: Variant): (names: seq<string>)
    ensures |names| == NumTypes
  {
    match v
    case Via => ["bump", "crack", "depression", "displacement", "vegetation", "uneven", "pothole"]
    case Ibox => ["bump", "crack", "depression", "displacement", "pothole", "uneven", "vegetation"]
  }

  /** faulttype2str: kArrTypeStr.at(type), "" when out of range. */
  function TypeToStr(t: int): (s: string)
    ensures 0 <= t < NumTypes ==> s == TypeNames[t]
    ensures !(0 <= t < NumTypes) ==> s == ""
  {
    if 0 <= t < |TypeNames| then TypeNames[t] else ""
  }

  /** faultlevel2str: kArrLevelStr.at(level), "" when out of range. */
  function LevelToStr(l: int): (s: string)
    ensures 0 <= l < 4 ==> s == LevelNames[l]
    ensures !(0 <= l < 4) ==> s == ""
  {
    if 0 <= l < |LevelNames| then LevelNames[l] else ""
  }

  /** str2faultlevel: kMapLevel.at(str), FaultLevel::NONE (0) when absent. */
  function StrToLevel(s: string): (l: nat)
    ensures l <= 3
  {
    if s == "fair" then 1 else if s == "poor" then 2 else if s == "verypoor" then 3 else 0
  }

  /** str2faulttype: kMapType.at(str), FaultType::NONE (0) when absent. */
  function StrToType(v: Variant, s: string): (t: nat)
    ensures t <= NumTypes
  {
    if s == "bump" then 1
    else if s == "crack" then 2
    else if s == "depression" then 3
    else if s == "displacement" then 4
    else if s == "vegetation" then (if v == Via then 5 else 7)
    else if s == "uneven" then 6
    else if s == "pothole" then (if v == Via then 7 else 5)
    else 0
  }

  /** The level lookup finds exactly the three level names, and inverts the
      level table on them. */
  lemma LevelLookup(s: string, l: nat)
    ensures StrToLevel(s) != 0 <==> s in LevelNames[1..]
    ensures StrToLevel(s) != 0 ==> LevelToStr(StrToLevel(s)) == s
    ensures 1 <= l <= 3 ==> StrToLevel(LevelToStr(l)) == l
  {
  }

  /** The type lookup finds exactly the seven category names, and its value
      is one more than the name's position in the enum. */
  lemma TypeLookup(v: Variant, s: string, t: nat)
    ensures StrToType(v, s) != 0 <==> s in CategoryNames(v)
    ensures StrToType(v, s) != 0 ==> CategoryNames(v)[StrToType(v, s) - 1] == s
    ensures t < NumTypes ==> StrToType(v, CategoryNames(v)[t]) == t + 1
  {
  }

  /** In the via copy the rendering table is the enum order, so a name set
      by set_fault renders back as itself. */
  lemma ViaNamesRoundTrip(s: string)
    requires StrToType(Via, s) != 0
    ensures TypeToStr(StrToType(Via, s) - 1) == s
  {
  }

  /** In the ibox copy the tables disagree: "pothole" is stored in slot 4 and
      slot 4 renders as "vegetation", and the other way round. */
  lemma IboxNamesSwapped()
    ensures TypeToStr(StrToType(Ibox, "pothole") - 1) == "vegetation"
    ensures TypeToStr(StrToType(Ibox, "vegetation") - 1) == "pothole"
    ensures forall s | s in CategoryNames(Ibox) && s != "pothole" && s != "vegetation" ::
              TypeToStr(StrToType(Ibox, s) - 1) == s
  {
  }

  /** The enumerator prefixes of enum class Fault (NONE excluded). */
  datatype Category = Bump | Crack | Depression | Displacement | Vegetation | Uneven | Pothole | Padding

  /** The slot of each enumerator prefix in include/via.hpp and
      include/ibox.hpp. */
  function EnumSlot(v: Variant, c: Category): (s: nat)
    ensures s < 8
    ensures (s == 7) == (c == Padding)
  {
    match c
    case Bump => 0
    case Crack => 1
    case Depression => 2
    case Displacement => 3
    case Vegetation => if v == Via then 4 else 6
    case Uneven => 5
    case Pothole => if v == Via then 6 else 4
    case Padding => 7
  }

  /** `<CATEGORY>_<LEVEL> = level << 2 * slot`; level 1 is _FAIR, 2 _POOR and
      3 _VPOOR. */
  function Enum(v: Variant, c: Category, l: Level): (r: Fault)
    ensures Slot(r, EnumSlot(v, c)) == l
    ensures forall j | 0 <= j < 8 && j != EnumSlot(v, c) :: Slot(r, j) == 0
  {
    Mask(EnumSlot(v, c), l)
  }

  lemma EnumSlotInjective(v: Variant, c: Category, d: Category)
    requires c != d
    ensures EnumSlot(v, c) != EnumSlot(v, d)
  {
  }

  /** Enumerators of different categories never share a bit. */
  lemma EnumsDisjoint(v: Variant, c: Category, d: Category, l: Level, m: Level)
    requires c != d
    ensures And(Enum(v, c, l), Enum(v, d, m)) == NONE
  {
    EnumSlotInjective(v, c, d);
    MasksDisjoint(EnumSlot(v, c), l, EnumSlot(v, d), m);
  }

  /** The layouts agree except that pothole and vegetation trade places:
      via puts pothole at bits 12-13 and vegetation at 8-9, ibox the reverse. */
  lemma LayoutsDiffer()
    ensures Enum(Via, Pothole, 1) == 0x1000 && Enum(Via, Vegetation, 1) == 0x0100
    ensures Enum(Ibox, Pothole, 1) == 0x0100 && Enum(Ibox, Vegetation, 1) == 0x1000
    ensures forall c | c != Pothole && c != Vegetation :: EnumSlot(Via, c) == EnumSlot(Ibox, c)
  {
  }

  /** The category enumerator of a name. */
  function CategoryOf(s: string): (c: Category)
    requires s in TypeNames
    ensures c != Padding
  {
    if s == "bump" then Bump
    else if s == "crack" then Crack
    else if s == "depression" then Depression
    else if s == "displacement" then Displacement
    else if s == "vegetation" then Vegetation
    else if s == "uneven" then Uneven
    else Pothole
  }

  /** set_fault on a named category lands on the enumerator of that
      category: the .cpp lookup tables agree with the header layout of the
      same variant. */
  lemma SetFaultIsEnum(v: Variant, s: string, l: Level)
    requires s in TypeNames
    ensures StrToType(v, s) != 0
    ensures SetFault(NONE, StrToType(v, s), l) == Enum(v, CategoryOf(s), l)
  {
    var t := StrToType(v, s);
    var r := SetFault(NONE, t, l);
    NoneIsEmpty();
    assert EnumSlot(v, CategoryOf(s)) == t - 1;
    assert forall j | 0 <= j < 8 :: Slot(r, j) == Slot(Enum(v, CategoryOf(s), l), j);
    SlotsDetermine(r, Enum(v, CategoryOf(s), l));
  }

  /** tests/test_annot.cpp, Fault.AndOrOperator. */
  lemma ViaOperatorExample()
    ensures Or(Or(Enum(Via, Crack, 1), Enum(Via, Bump, 2)), Enum(Via, Depression, 3)) == 0x36
    ensures Or(0x36, Or(Enum(Via, Crack, 3), Enum(Via, Uneven, 2))) == 0x083E
  {
  }

  /** tests/test_ibox.cpp, Fault.AndOrOp. */
  lemma IboxOperatorExample()
    ensures Or(Or(Enum(Ibox, Crack, 1), Enum(Ibox, Bump, 2)), Enum(Ibox, Depression, 3)) == 0x36
    ensures Or(0x36, Or(Enum(Ibox, Crack, 3), Enum(Ibox, Vegetation, 2))) == 0x203E
  {
  }

  /** tests/test_ibox.cpp, Box.MaxSeverityOp. */
  lemma MaxSeverityExample()
    ensures MaxSeverity(NONE) == 0
    ensures MaxSeverity(Enum(Ibox, Crack, 1)) == 1
    ensures MaxSeverity(Or(Enum(Ibox, Crack, 1), Enum(Ibox, Bump, 2))) == 2
    ensures MaxSeverity(Or(Or(Enum(Ibox, Crack, 1), Enum(Ibox, Bump, 2)), Enum(Ibox, Depression, 3))) == 3
  {
  }
}
