/** Helpers of the `ls` builtin: hidden names, the permission string of a
    listing and the `-F` suffix. A file's mode is a `u32`, here `bv32`. */
module FileOps {
  import opened Base

  type Mode = bv32

  /** `is_hidden`: the name starts with a dot. */
  predicate IsHidden(name: string) {
    |name| > 0 && name[0] == '.'
  }

  /** Exactly the names made of a dot and a rest are hidden; in particular
      `.` and `..` are, and the empty name is not. */
  lemma HiddenNames(name: string, rest: string)
    ensures IsHidden(['.'] + rest)
    ensures IsHidden(name) ==> name == ['.'] + name[1..]
    ensures !IsHidden([])
  {
  }

  /** `mode_triplet`: `r`, `w`, `x` for the 4, 2 and 1 bits, `-` otherwise. */
  function ModeTriplet(bits: Mode): (r: string)
    ensures |r| == 3
    ensures r[0] == (if bits & 4 != 0 then 'r' else '-')
    ensures r[1] == (if bits & 2 != 0 then 'w' else '-')
    ensures r[2] == (if bits & 1 != 0 then 'x' else '-')
  {
    [if bits & 4 != 0 then 'r' else '-',
     if bits & 2 != 0 then 'w' else '-',
     if bits & 1 != 0 then 'x' else '-']
  }

  /** `mode_string` (Unix): the file-type character, then the owner, group
      and other triplets of the low nine mode bits. */
  function ModeString(mode: Mode, isDir: bool): (r: string)
    ensures |r| == 10
    ensures (r[0] == 'd') == isDir
  {
    var perm := mode & 0x1FF;
    [if isDir then 'd' else '-']
      + ModeTriplet((perm >> 6) & 7) + ModeTriplet((perm >> 3) & 7) + ModeTriplet(perm & 7)
  }

  /** `mode_string` where the platform has no Unix permissions. */
  function ModeStringPlain(isDir: bool): (r: string)
    ensures |r| == 10 && (r[0] == 'd') == isDir
    ensures forall i :: 1 <= i < 10 ==> r[i] == '-'
  {
    [if isDir then 'd' else '-'] + "---------"
  }

  /** The letter a set bit shows at position `k` (1 to 9) of a mode string. */
  function PermLetter(k: nat): char
    requires 1 <= k <= 9
  {
    "rwx"[(k - 1) % 3]
  }

  /** The mode bit shown at position `k` (1 to 9): position 1 is bit 8
      (owner read), position 9 is bit 0 (other execute). */
  function PermBit(k: nat): Mode
    requires 1 <= k <= 9
  {
    [0x100, 0x80, 0x40, 0x20, 0x10, 0x8, 0x4, 0x2, 0x1][k - 1]
  }

  /** The owner, group and other triplets show the mode's bits 8-6, 5-3 and
      2-0: position `k` of the string shows bit `9 - k`. */
  lemma OwnerAt(mode: Mode, isDir: bool, k: nat)
    requires 1 <= k <= 3
    ensures ModeString(mode, isDir)[k] == if mode & PermBit(k) != 0 then PermLetter(k) else '-'
  {
    var b := ((mode & 0x1FF) >> 6) & 7;
    var r := ModeString(mode, isDir);
    if k == 1 {
      assert PermBit(1) == 0x100 && PermLetter(1) == 'r';
      assert (b & 4 != 0) == (mode & 0x100 != 0);
      assert r[1] == ModeTriplet(b)[0];
    } else if k == 2 {
      assert PermBit(2) == 0x80 && PermLetter(2) == 'w';
      assert (b & 2 != 0) == (mode & 0x80 != 0);
      assert r[2] == ModeTriplet(b)[1];
    } else {
      assert PermBit(3) == 0x40 && PermLetter(3) == 'x';
      assert (b & 1 != 0) == (mode & 0x40 != 0);
      assert r[3] == ModeTriplet(b)[2];
    }
  }

  lemma GroupAt(mode: Mode, isDir: bool, k: nat)
    requires 4 <= k <= 6
    ensures ModeString(mode, isDir)[k] == if mode & PermBit(k) != 0 then PermLetter(k) else '-'
  {
    var b := ((mode & 0x1FF) >> 3) & 7;
    var r := ModeString(mode, isDir);
    if k == 4 {
      assert PermBit(4) == 0x20 && PermLetter(4) == 'r';
      assert (b & 4 != 0) == (mode & 0x20 != 0);
      assert r[4] == ModeTriplet(b)[0];
    } else if k == 5 {
      assert PermBit(5) == 0x10 && PermLetter(5) == 'w';
      assert (b & 2 != 0) == (mode & 0x10 != 0);
      assert r[5] == ModeTriplet(b)[1];
    } else {
      assert PermBit(6) == 0x8 && PermLetter(6) == 'x';
      assert (b & 1 != 0) == (mode & 0x8 != 0);
      assert r[6] == ModeTriplet(b)[2];
    }
  }

  lemma OtherAt(mode: Mode, isDir: bool, k: nat)
    requires 7 <= k <= 9
    ensures ModeString(mode, isDir)[k] == if mode & PermBit(k) != 0 then PermLetter(k) else '-'
  {
    var b := (mode & 0x1FF) & 7;
    var r := ModeString(mode, isDir);
    if k == 7 {
      assert PermBit(7) == 0x4 && PermLetter(7) == 'r';
      assert (b & 4 != 0) == (mode & 0x4 != 0);
      assert r[7] == ModeTriplet(b)[0];
    } else if k == 8 {
      assert PermBit(8) == 0x2 && PermLetter(8) == 'w';
      assert (b & 2 != 0) == (mode & 0x2 != 0);
      assert r[8] == ModeTriplet(b)[1];
    } else {
      assert PermBit(9) == 0x1 && PermLetter(9) == 'x';
      assert (b & 1 != 0) == (mode & 0x1 != 0);
      assert r[9] == ModeTriplet(b)[2];
    }
  }

  /** Position `k` of the permission string shows its letter exactly when
      the mode bit for that position is set. */
  lemma ModeStringAt(mode: Mode, isDir: bool, k: nat)
    requires 1 <= k <= 9
    ensures ModeString(mode, isDir)[k] == if mode & PermBit(k) != 0 then PermLetter(k) else '-'
  {
    if k <= 3 {
      OwnerAt(mode, isDir, k);
    } else if k <= 6 {
      GroupAt(mode, isDir, k);
    } else {
      OtherAt(mode, isDir, k);
    }
  }

  /** Only the low nine mode bits are shown. */
  lemma ModeStringLowBits(mode: Mode, isDir: bool)
    ensures ModeString(mode, isDir) == ModeString(mode & 0x1FF, isDir)
  {
    assert mode & 0x1FF & 0x1FF == mode & 0x1FF;
  }

  /** The bit a letter of a mode string stands for: `bit` unless it is `-`. */
  function Shown(c: char, bit: Mode): Mode {
    if c != '-' then bit else 0
  }

  /** The permission bits a mode string shows, read back from its letters. */
  function PermBits(s: string): Mode
    requires |s| == 10
  {
    Shown(s[1], 0x100) | Shown(s[2], 0x80) | Shown(s[3], 0x40)
    | Shown(s[4], 0x20) | Shown(s[5], 0x10) | Shown(s[6], 0x8)
    | Shown(s[7], 0x4) | Shown(s[8], 0x2) | Shown(s[9], 0x1)
  }

  /** The low nine bits are the union of those of them that are set. */
  lemma LowBitsUnion(mode: Mode)
    ensures mode & 0x1FF
      == (mode & 0x100) | (mode & 0x80) | (mode & 0x40) | (mode & 0x20)
         | (mode & 0x10) | (mode & 0x8) | (mode & 0x4) | (mode & 0x2) | (mode & 0x1)
  {
  }

  /** Letters that each show their bit reassemble the low nine bits. */
  lemma Reassemble(r: string, mode: Mode)
    requires |r| == 10
    requires Shown(r[1], 0x100) == mode & 0x100 && Shown(r[2], 0x80) == mode & 0x80
    requires Shown(r[3], 0x40) == mode & 0x40 && Shown(r[4], 0x20) == mode & 0x20
    requires Shown(r[5], 0x10) == mode & 0x10 && Shown(r[6], 0x8) == mode & 0x8
    requires Shown(r[7], 0x4) == mode & 0x4 && Shown(r[8], 0x2) == mode & 0x2
    requires Shown(r[9], 0x1) == mode & 0x1
    ensures PermBits(r) == mode & 0x1FF
  {
    LowBitsUnion(mode);
  }

  /** Position `k` of the permission string shows the bit it stands for. */
  lemma ShownAt(mode: Mode, isDir: bool, k: nat)
    requires 1 <= k <= 9
    ensures Shown(ModeString(mode, isDir)[k], PermBit(k)) == mode & PermBit(k)
  {
    ModeStringAt(mode, isDir, k);
    assert PermLetter(k) != '-';
    assert PermBit(k) & PermBit(k) == PermBit(k);
  }

  /** The permission string loses nothing: reading it back gives the low
      nine mode bits. */
  lemma ModeStringRoundTrip(mode: Mode, isDir: bool)
    ensures PermBits(ModeString(mode, isDir)) == mode & 0x1FF
  {
    ShownAt(mode, isDir, 1); ShownAt(mode, isDir, 2); ShownAt(mode, isDir, 3);
    ShownAt(mode, isDir, 4); ShownAt(mode, isDir, 5); ShownAt(mode, isDir, 6);
    ShownAt(mode, isDir, 7); ShownAt(mode, isDir, 8); ShownAt(mode, isDir, 9);
    Reassemble(ModeString(mode, isDir), mode);
  }

  /** Any execute bit (owner, group or other). */
  predicate AnyExecBit(mode: Mode) {
    mode & 0x49 != 0
  }

  /** `classify_suffix` (Unix), with the metadata lookup's mode passed in
      (`None` when the lookup fails). */
  function ClassifySuffix(isDir: bool, mode: Option<Mode>): (r: string)
    ensures isDir ==> r == "/"
    ensures !isDir ==> (r == "*" <==> mode.Some? && (mode.value & 0x40 != 0 || mode.value & 0x8 != 0 || mode.value & 0x1 != 0))
    ensures !isDir && r != "*" ==> r == ""
  {
    if isDir then "/"
    else if mode.Some? && AnyExecBit(mode.value) then "*"
    else ""
  }

  /** `classify_suffix` where executables are not detected. */
  function ClassifySuffixPlain(isDir: bool): (r: string)
    ensures r == "/" <==> isDir
    ensures !isDir ==> r == []
  {
    if isDir then "/" else ""
  }
}
