/** logging: rotation of the log file over its numbered backups, as a transformation of the log directory. */
module Logging {
  import opened Wrappers
  import opened Texts
  import opened Decimal

  type Content = Bytes

  const U32_MAX: nat := 0xFFFF_FFFF
  const PLUS: Byte := 0x2B

  datatype IoError = NotFound

  function Lookup(files: map<Text, Content>, file: Text): Option<Content> {
    if file in files then Some(files[file]) else None
  }

  /** The log directory; a rename replaces its target. */
  class Directory {
    var files: map<Text, Content>

    method RemoveFile(file: Text) returns (r: Result<(), IoError>)
      modifies this
      ensures r == if file in old(files) then Ok(()) else Err(NotFound)
      ensures files == old(files) - {file}
    {
      r := if file in files then Ok(()) else Err(NotFound);
      files := files - {file};
    }

    method Rename(from: Text, to: Text) returns (r: Result<(), IoError>)
      requires from != to
      modifies this
      ensures r == if from in old(files) then Ok(()) else Err(NotFound)
      ensures files == if from in old(files) then (old(files) - {from})[to := old(files)[from]] else old(files)
    {
      if from !in files {
        return Err(NotFound);
      }
      files := (files - {from})[to := files[from]];
      r := Ok(());
    }
  }

  // ----- file names -----

  /** Reading a 32-bit index: an optional plus sign, then at least one digit; leading zeros are accepted. */
  function ParseU32(s: Text): Option<nat> {
    var digits := if s != [] && s[0] == PLUS then s[1..] else s;
    if digits == [] || !AllDigits(digits) || Value(digits) > U32_MAX then None else Some(Value(digits))
  }

  /** Slot 0 is the log file itself, slot i its i-th backup. */
  function SlotName(name: Text, i: nat): Text {
    if i == 0 then name else name + [DOT] + Dec(i)
  }

  /** The index that the clean-up reads off a file name. */
  function Index(name: Text, file: Text): Option<nat> {
    if name + [DOT] <= file then ParseU32(file[|name| + 1..]) else None
  }

  function SlotOf(name: Text, file: Text): Option<nat> {
    if file == name then Some(0)
    else match Index(name, file)
         case Some(i) => if i > 0 && file == SlotName(name, i) then Some(i) else None
         case None => None
  }

  lemma {:induction false} IndexOfSlot(name: Text, i: nat)
    requires 0 < i <= U32_MAX
    ensures Index(name, SlotName(name, i)) == Some(i)
  {
    var file := SlotName(name, i);
    ValueOfDec(i);
    assert file[|name| + 1..] == Dec(i);
    assert IsDigit(Dec(i)[0]);
  }

  lemma {:induction false} SlotOfName(name: Text, i: nat)
    requires i <= U32_MAX
    ensures SlotOf(name, SlotName(name, i)) == Some(i)
  {
    if i > 0 {
      IndexOfSlot(name, i);
    }
  }

  lemma {:induction false} SlotsDiffer(name: Text, i: nat, j: nat)
    requires i <= U32_MAX && j <= U32_MAX && i != j
    ensures SlotName(name, i) != SlotName(name, j)
  {
    SlotOfName(name, i);
    SlotOfName(name, j);
  }

  predicate Excess(name: Text, limit: nat, file: Text) {
    Index(name, file).Some? && Index(name, file).value > limit
  }

  /** The file is `name.`, perhaps a plus sign, and digits that name a 32-bit number beyond the limit. */
  ghost predicate NumberedBeyond(name: Text, limit: nat, file: Text) {
    exists digits: Text ::
      && digits != [] && AllDigits(digits) && limit < Value(digits) <= U32_MAX
      && (file == name + [DOT] + digits || file == name + [DOT] + [PLUS] + digits)
  }

  lemma {:induction false} IndexAfter(name: Text, suffix: Text)
    ensures Index(name, name + [DOT] + suffix) == ParseU32(suffix)
  {
    var file := name + [DOT] + suffix;
    assert name + [DOT] <= file && file[|name| + 1..] == suffix;
  }

  lemma {:induction false} ParsesDigits(digits: Text)
    requires digits != [] && AllDigits(digits) && Value(digits) <= U32_MAX
    ensures ParseU32(digits) == ParseU32([PLUS] + digits) == Some(Value(digits))
  {
    assert IsDigit(digits[0]);
    assert ([PLUS] + digits)[1..] == digits;
  }

  lemma {:induction false} ParsedDigits(s: Text) returns (digits: Text)
    requires ParseU32(s).Some?
    ensures digits != [] && AllDigits(digits) && Value(digits) <= U32_MAX && ParseU32(s) == Some(Value(digits))
    ensures s == digits || s == [PLUS] + digits
  {
    digits := if s[0] == PLUS then s[1..] else s;
  }

  lemma {:induction false} ParsedIsExcess(name: Text, limit: nat, suffix: Text, i: nat)
    requires ParseU32(suffix) == Some(i) && i > limit
    ensures Excess(name, limit, name + [DOT] + suffix)
  {
    IndexAfter(name, suffix);
  }

  lemma {:induction false} PlusRegroups(name: Text, digits: Text)
    ensures name + [DOT] + [PLUS] + digits == name + [DOT] + ([PLUS] + digits)
  {
  }

  lemma {:induction false} NumberedIsExcess(name: Text, limit: nat, digits: Text)
    requires digits != [] && AllDigits(digits) && limit < Value(digits) <= U32_MAX
    ensures Excess(name, limit, name + [DOT] + digits) && Excess(name, limit, name + [DOT] + [PLUS] + digits)
  {
    ParsesDigits(digits);
    PlusRegroups(name, digits);
    ParsedIsExcess(name, limit, digits, Value(digits));
    ParsedIsExcess(name, limit, [PLUS] + digits, Value(digits));
  }

  lemma {:induction false} ExcessIsNumbered(name: Text, limit: nat, file: Text)
    requires Excess(name, limit, file)
    ensures NumberedBeyond(name, limit, file)
  {
    var suffix := file[|name| + 1..];
    assert file == name + [DOT] + suffix;
    var digits := ParsedDigits(suffix);
    PlusRegroups(name, digits);
  }

  /** What the clean-up deletes are the files numbered beyond the limit, however the number is written. */
  lemma {:induction false} ExcessIffNumbered(name: Text, limit: nat, file: Text)
    ensures Excess(name, limit, file) <==> NumberedBeyond(name, limit, file)
  {
    if Excess(name, limit, file) {
      ExcessIsNumbered(name, limit, file);
    }
    forall digits: Text | digits != [] && AllDigits(digits) && limit < Value(digits) <= U32_MAX
      ensures Excess(name, limit, name + [DOT] + digits) && Excess(name, limit, name + [DOT] + [PLUS] + digits)
    {
      NumberedIsExcess(name, limit, digits);
    }
  }

  // ----- what a rotation leaves behind -----

  /** Slot j when every slot from `low` on has moved up and the last one, if nothing took its place, stayed. */
  function Shifted(files: map<Text, Content>, name: Text, limit: nat, low: nat, j: nat): Option<Content>
    requires low <= limit
  {
    if j < low || j > limit then Lookup(files, SlotName(name, j))
    else if j > low && SlotName(name, j - 1) in files then Some(files[SlotName(name, j - 1)])
    else if j == limit then Lookup(files, SlotName(name, j))
    else None
  }

  function ShiftedFile(files: map<Text, Content>, name: Text, limit: nat, low: nat, file: Text): Option<Content>
    requires low <= limit
  {
    match SlotOf(name, file)
    case Some(j) => Shifted(files, name, limit, low, j)
    case None => Lookup(files, file)
  }

  /** What one rotation makes of each file of the directory. */
  function Rotated(files: map<Text, Content>, name: Text, limit: nat, file: Text): Option<Content> {
    if Excess(name, limit, file) || (limit == 0 && file == name) then None
    else ShiftedFile(files, name, limit, 0, file)
  }

  ghost predicate IsRotation(before: map<Text, Content>, after: map<Text, Content>, name: Text, limit: nat) {
    forall file: Text :: Lookup(after, file) == Rotated(before, name, limit, file)
  }

  /** Every slot from `low` on of the cleaned directory has been moved up. */
  ghost predicate IsShift(cleaned: map<Text, Content>, now: map<Text, Content>, name: Text, limit: nat, low: nat)
    requires low <= limit
  {
    forall file: Text :: Lookup(now, file) == ShiftedFile(cleaned, name, limit, low, file)
  }

  /** The files not yet listed are untouched, the listed ones beyond the limit are gone. */
  ghost predicate IsCleaning(before: map<Text, Content>, now: map<Text, Content>, name: Text, limit: nat,
                             unlisted: set<Text>)
  {
    forall file: Text ::
      Lookup(now, file) == if file !in unlisted && Excess(name, limit, file) then None else Lookup(before, file)
  }

  /** One rename extends the shift by one slot. */
  lemma {:induction false} RenameShifts(files: map<Text, Content>, now: map<Text, Content>, next: map<Text, Content>,
                                        name: Text, limit: nat, i: nat)
    requires i < limit <= U32_MAX && IsShift(files, now, name, limit, i + 1)
    requires IsRename(now, next, SlotName(name, i), SlotName(name, i + 1))
    ensures IsShift(files, next, name, limit, i)
    ensures Lookup(now, SlotName(name, i)) == Lookup(files, SlotName(name, i))
  {
    ShiftedSlot(files, now, name, limit, i + 1, i);
    forall file: Text ensures Lookup(next, file) == ShiftedFile(files, name, limit, i, file) {
      RenameShiftsFile(files, now, next, name, limit, i, file);
    }
  }

  predicate IsRename(now: map<Text, Content>, next: map<Text, Content>, from: Text, to: Text) {
    next == if from in now then (now - {from})[to := now[from]] else now
  }

  lemma {:induction false} ShiftedSlot(files: map<Text, Content>, now: map<Text, Content>, name: Text, limit: nat,
                                       low: nat, j: nat)
    requires low <= limit && j <= U32_MAX && IsShift(files, now, name, limit, low)
    ensures Lookup(now, SlotName(name, j)) == Shifted(files, name, limit, low, j)
  {
    SlotOfName(name, j);
    assert Lookup(now, SlotName(name, j)) == ShiftedFile(files, name, limit, low, SlotName(name, j));
  }

  lemma {:induction false} RenameShiftsFile(files: map<Text, Content>, now: map<Text, Content>,
                                            next: map<Text, Content>, name: Text, limit: nat, i: nat, file: Text)
    requires i < limit <= U32_MAX && IsShift(files, now, name, limit, i + 1)
    requires IsRename(now, next, SlotName(name, i), SlotName(name, i + 1))
    ensures Lookup(next, file) == ShiftedFile(files, name, limit, i, file)
  {
    SlotsDiffer(name, i, i + 1);
    ShiftedSlot(files, now, name, limit, i + 1, i);
    ShiftedSlot(files, now, name, limit, i + 1, i + 1);
    assert Lookup(now, file) == ShiftedFile(files, name, limit, i + 1, file);
    SlotOfName(name, i);
    SlotOfName(name, i + 1);
    if file != SlotName(name, i) && file != SlotName(name, i + 1) {
      assert Lookup(next, file) == Lookup(now, file);
      ShiftedElsewhere(files, name, limit, i, file);
    }
  }

  lemma {:induction false} ShiftedElsewhere(files: map<Text, Content>, name: Text, limit: nat, i: nat, file: Text)
    requires i < limit && file != SlotName(name, i) && file != SlotName(name, i + 1)
    ensures ShiftedFile(files, name, limit, i, file) == ShiftedFile(files, name, limit, i + 1, file)
  {
    if SlotOf(name, file).Some? {
      SlotNameOf(name, file);
    }
  }

  lemma {:induction false} SlotNameOf(name: Text, file: Text)
    requires SlotOf(name, file).Some?
    ensures file == SlotName(name, SlotOf(name, file).value) && SlotOf(name, file).value <= U32_MAX
  {
  }

  /** The shift of the cleaned directory is the rotation of the whole one. */
  lemma {:induction false} CleanThenShift(before: map<Text, Content>, cleaned: map<Text, Content>,
                                          after: map<Text, Content>, name: Text, limit: nat)
    requires 0 < limit <= U32_MAX
    requires IsCleaning(before, cleaned, name, limit, {}) && IsShift(cleaned, after, name, limit, 0)
    ensures IsRotation(before, after, name, limit)
  {
    forall file: Text ensures Lookup(after, file) == Rotated(before, name, limit, file) {
      assert Lookup(after, file) == ShiftedFile(cleaned, name, limit, 0, file);
      CleanedFile(before, cleaned, name, limit, file);
    }
  }

  lemma {:induction false} CleanedFile(before: map<Text, Content>, cleaned: map<Text, Content>, name: Text,
                                       limit: nat, file: Text)
    requires 0 < limit <= U32_MAX && IsCleaning(before, cleaned, name, limit, {})
    ensures ShiftedFile(cleaned, name, limit, 0, file) == Rotated(before, name, limit, file)
  {
    assert Lookup(cleaned, file) == if Excess(name, limit, file) then None else Lookup(before, file);
    var slot := SlotOf(name, file);
    if slot.Some? {
      var j := slot.value;
      assert Index(name, file).Some? ==> file == name || Index(name, file).value == j;
      NotExcess(name, limit, 0);
      if 0 < j <= limit {
        NotExcess(name, limit, j);
        NotExcess(name, limit, j - 1);
        var below := SlotName(name, j - 1);
        assert Lookup(cleaned, below) == if Excess(name, limit, below) then None else Lookup(before, below);
      }
    }
  }

  lemma {:induction false} NotExcess(name: Text, limit: nat, i: nat)
    requires i <= limit <= U32_MAX
    ensures !Excess(name, limit, SlotName(name, i))
  {
    if i > 0 {
      IndexOfSlot(name, i);
    } else {
      assert !(name + [DOT] <= name);
    }
  }

  /** Lists the directory in any order and deletes the backups beyond the limit. */
  method RemoveExcess(dir: Directory, name: Text, maxBackups: nat)
    modifies dir
    ensures IsCleaning(old(dir.files), dir.files, name, maxBackups, {})
  {
    var entries := dir.files.Keys;
    while entries != {}
      invariant forall file <- entries :: file in dir.files
      invariant IsCleaning(old(dir.files), dir.files, name, maxBackups, entries)
      decreases |entries|
    {
      var entry :| entry in entries;
      if Excess(name, maxBackups, entry) {
        var _ := dir.RemoveFile(entry);
      }
      entries := entries - {entry};
    }
  }

  /**
   Deletes backups beyond the limit, then moves every slot up, the highest first. Without a log file the backups
   move all the same and the last rename reports it.
   */
  method RotateLogFile(dir: Directory, name: Text, maxBackups: nat) returns (r: Result<(), IoError>)
    requires maxBackups <= U32_MAX
    modifies dir
    ensures IsRotation(old(dir.files), dir.files, name, maxBackups)
    ensures r == if maxBackups == 0 || name in old(dir.files) then Ok(()) else Err(NotFound)
  {
    RemoveExcess(dir, name, maxBackups);
    ghost var cleaned := dir.files;
    if maxBackups == 0 {
      var _ := dir.RemoveFile(name);
      RotationToNothing(old(dir.files), cleaned, dir.files, name);
      return Ok(());
    }
    var index := maxBackups - 1;
    while index >= 1
      invariant 0 <= index < maxBackups
      invariant IsShift(cleaned, dir.files, name, maxBackups, index + 1)
    {
      ghost var now := dir.files;
      SlotsDiffer(name, index, index + 1);
      var _ := dir.Rename(SlotName(name, index), SlotName(name, index + 1));
      RenameShifts(cleaned, now, dir.files, name, maxBackups, index);
      index := index - 1;
    }
    ghost var now := dir.files;
    SlotsDiffer(name, 0, 1);
    r := dir.Rename(SlotName(name, 0), SlotName(name, 1));
    RenameShifts(cleaned, now, dir.files, name, maxBackups, 0);
    CleanThenShift(old(dir.files), cleaned, dir.files, name, maxBackups);
    NotExcess(name, maxBackups, 0);
    assert Lookup(cleaned, name) == Lookup(old(dir.files), name);
  }

  lemma {:induction false} RotationToNothing(before: map<Text, Content>, cleaned: map<Text, Content>,
                                             after: map<Text, Content>, name: Text)
    requires IsCleaning(before, cleaned, name, 0, {}) && after == cleaned - {name}
    ensures IsRotation(before, after, name, 0)
  {
    forall file: Text ensures Lookup(after, file) == Rotated(before, name, 0, file) {
      assert Lookup(cleaned, file) == if Excess(name, 0, file) then None else Lookup(before, file);
    }
  }

  // ----- runs of rotations -----

  /** Backup i holds the i-th element of `stack`, and there are no further backups. */
  ghost predicate BackupsAre(files: map<Text, Content>, name: Text, stack: seq<Content>) {
    forall i :: 0 < i <= U32_MAX ==>
      Lookup(files, SlotName(name, i)) == if i <= |stack| then Some(stack[i - 1]) else None
  }

  function Top(stack: seq<Content>, limit: nat): seq<Content> {
    if |stack| <= limit then stack else stack[..limit]
  }

  lemma {:induction false} RotationPushes(before: map<Text, Content>, after: map<Text, Content>, name: Text, limit: nat,
                                          stack: seq<Content>)
    requires limit <= U32_MAX && |stack| <= U32_MAX && name in before
    requires BackupsAre(before, name, stack) && IsRotation(before, after, name, limit)
    ensures BackupsAre(after, name, Top([before[name]] + stack, limit)) && name !in after
  {
    var pushed := Top([before[name]] + stack, limit);
    forall i | 0 < i <= U32_MAX
      ensures Lookup(after, SlotName(name, i)) == if i <= |pushed| then Some(pushed[i - 1]) else None
    {
      SlotAfterPush(before, after, name, limit, stack, i);
    }
    assert Lookup(after, name) == Rotated(before, name, limit, name);
    SlotOfName(name, 0);
  }

  lemma {:induction false} SlotAfterPush(before: map<Text, Content>, after: map<Text, Content>, name: Text, limit: nat,
                                         stack: seq<Content>, i: nat)
    requires limit <= U32_MAX && |stack| <= U32_MAX && name in before && 0 < i <= U32_MAX
    requires BackupsAre(before, name, stack) && IsRotation(before, after, name, limit)
    ensures var pushed := Top([before[name]] + stack, limit);
            Lookup(after, SlotName(name, i)) == if i <= |pushed| then Some(pushed[i - 1]) else None
  {
    SlotOfName(name, i);
    IndexOfSlot(name, i);
    assert Lookup(after, SlotName(name, i)) == Rotated(before, name, limit, SlotName(name, i));
    assert Lookup(before, SlotName(name, i)) == if i <= |stack| then Some(stack[i - 1]) else None;
    if i > 1 {
      assert Lookup(before, SlotName(name, i - 1)) == if i - 1 <= |stack| then Some(stack[i - 2]) else None;
    }
  }

  /** A run: the log file is written, then rotated, each time under the limit in force. */
  ghost predicate IsRun(states: seq<map<Text, Content>>, name: Text, written: seq<Content>, limits: seq<nat>) {
    && |states| == |written| + 1 && |limits| == |written|
    && (forall k :: 0 <= k < |written| ==> limits[k] <= U32_MAX)
    && (forall k :: 0 <= k < |written| ==> IsRotation(states[k][name := written[k]], states[k + 1], name, limits[k]))
  }

  /** The retained contents, newest first, when each rotation pushes one and cuts to its limit. */
  function Retained(written: seq<Content>, limits: seq<nat>): seq<Content>
    requires |written| == |limits|
  {
    if written == [] then []
    else
      var n := |written| - 1;
      Top([written[n]] + Retained(written[..n], limits[..n]), limits[n])
  }

  lemma {:induction false} RetainedFits(written: seq<Content>, limits: seq<nat>)
    requires |written| == |limits| && forall k :: 0 <= k < |limits| ==> limits[k] <= U32_MAX
    ensures |Retained(written, limits)| <= U32_MAX
  {
  }

  /** Main result, with the limit changed at will between rotations. */
  lemma {:induction false} BackupsAreTheLatest(states: seq<map<Text, Content>>, name: Text, written: seq<Content>,
                                               limits: seq<nat>)
    requires IsRun(states, name, written, limits) && BackupsAre(states[0], name, [])
    ensures BackupsAre(states[|written|], name, Retained(written, limits))
  {
    if written != [] {
      var n := |written| - 1;
      BackupsAreTheLatest(states[..n + 1], name, written[..n], limits[..n]);
      var stack := Retained(written[..n], limits[..n]);
      RetainedFits(written[..n], limits[..n]);
      var before := states[n][name := written[n]];
      forall i | 0 < i <= U32_MAX
        ensures Lookup(before, SlotName(name, i)) == if i <= |stack| then Some(stack[i - 1]) else None
      {
        SlotsDiffer(name, 0, i);
        assert Lookup(states[n], SlotName(name, i)) == if i <= |stack| then Some(stack[i - 1]) else None;
      }
      RotationPushes(before, states[n + 1], name, limits[n], stack);
    }
  }

  /** Under one limit m, backup i is the i-th most recently rotated content for i <= min(k, m); there are no others. */
  lemma {:induction false} BackupIsIthMostRecent(states: seq<map<Text, Content>>, name: Text, written: seq<Content>,
                                                 limits: seq<nat>, m: nat, i: nat)
    requires IsRun(states, name, written, limits) && BackupsAre(states[0], name, [])
    requires forall k :: 0 <= k < |limits| ==> limits[k] == m
    requires 0 < i <= U32_MAX
    ensures Lookup(states[|written|], SlotName(name, i)) ==
            if i <= m && i <= |written| then Some(written[|written| - i]) else None
  {
    BackupsAreTheLatest(states, name, written, limits);
    RetainedUnderOneLimit(written, limits, m, i);
  }

  lemma {:induction false} RetainedUnderOneLimit(written: seq<Content>, limits: seq<nat>, m: nat, i: nat)
    requires |written| == |limits| && forall k :: 0 <= k < |limits| ==> limits[k] == m
    requires 0 < i
    ensures var s := Retained(written, limits);
            (i <= |s| <==> i <= m && i <= |written|) && (i <= |s| ==> s[i - 1] == written[|written| - i])
  {
    if written != [] {
      var n := |written| - 1;
      var stack := Retained(written[..n], limits[..n]);
      assert Retained(written, limits) == Top([written[n]] + stack, m);
      TopOfPushed(written[n], stack, m, i);
      if i > 1 {
        RetainedUnderOneLimit(written[..n], limits[..n], m, i - 1);
        assert i - 1 <= |stack| <==> i - 1 <= m && i - 1 <= n;
        assert i - 1 <= |stack| ==> stack[i - 2] == written[n - (i - 1)];
      }
    }
  }

  lemma {:induction false} TopOfPushed(c: Content, stack: seq<Content>, m: nat, i: nat)
    requires 0 < i
    ensures var s := Top([c] + stack, m);
            && (i <= |s| <==> i <= m && i <= |stack| + 1)
            && (i <= |s| ==> s[i - 1] == if i == 1 then c else stack[i - 2])
  {
  }

  // ----- what can be lost -----

  /** From any directory: a backup moves up, or is beyond the limit, or was the last and was replaced. */
  lemma {:induction false} OnlyExcessAndReplacedAreLost(before: map<Text, Content>, after: map<Text, Content>,
                                                        name: Text, limit: nat, j: nat)
    requires limit <= U32_MAX && 0 < j <= U32_MAX
    requires IsRotation(before, after, name, limit) && SlotName(name, j) in before
    ensures j < limit ==> Lookup(after, SlotName(name, j + 1)) == Some(before[SlotName(name, j)])
    ensures j == limit ==> (Lookup(after, SlotName(name, j)) == Some(before[SlotName(name, j)])
                            <==> SlotName(name, j - 1) !in before
                                 || before[SlotName(name, j - 1)] == before[SlotName(name, j)])
    ensures j > limit ==> SlotName(name, j) !in after
  {
    SlotOfName(name, j);
    IndexOfSlot(name, j);
    assert Lookup(after, SlotName(name, j)) == Rotated(before, name, limit, SlotName(name, j));
    if j < limit {
      SlotOfName(name, j + 1);
      IndexOfSlot(name, j + 1);
      assert Lookup(after, SlotName(name, j + 1)) == Rotated(before, name, limit, SlotName(name, j + 1));
    }
  }

  /** The file whose content a file holds after a rotation: the slot below, or itself. */
  function Origin(before: map<Text, Content>, name: Text, limit: nat, file: Text): Text {
    match SlotOf(name, file)
    case Some(j) => if 0 < j <= limit && SlotName(name, j - 1) in before then SlotName(name, j - 1) else file
    case None => file
  }

  /** A rotation moves files and never copies or invents content, and other files stay where they are. */
  lemma {:induction false} RotationMovesFiles(before: map<Text, Content>, after: map<Text, Content>, name: Text,
                                              limit: nat, f: Text, g: Text)
    requires limit <= U32_MAX && IsRotation(before, after, name, limit) && f in after && g in after
    ensures Origin(before, name, limit, f) in before && after[f] == before[Origin(before, name, limit, f)]
    ensures f != g ==> Origin(before, name, limit, f) != Origin(before, name, limit, g)
    ensures forall file: Text :: NumberedBeyond(name, limit, file) ==> file !in after
    ensures forall file: Text :: IsNoSlot(name, file) && !NumberedBeyond(name, limit, file) ==>
              Lookup(after, file) == Lookup(before, file)
  {
    HasOrigin(before, after, name, limit, f);
    HasOrigin(before, after, name, limit, g);
    if f != g {
      OriginsDiffer(before, name, limit, f, g);
    }
    forall file: Text
      ensures NumberedBeyond(name, limit, file) ==> file !in after
      ensures IsNoSlot(name, file) && !NumberedBeyond(name, limit, file) ==> Lookup(after, file) == Lookup(before, file)
    {
      assert Lookup(after, file) == Rotated(before, name, limit, file);
      ExcessIffNumbered(name, limit, file);
      if SlotOf(name, file).Some? {
        SlotNameOf(name, file);
      }
    }
  }

  /** The file is neither the log file nor one of its backups. */
  ghost predicate IsNoSlot(name: Text, file: Text) {
    forall i: nat :: i <= U32_MAX ==> file != SlotName(name, i)
  }

  /** A file that is still there is within the limit, and a slot that kept its content has nothing below it. */
  lemma {:induction false} HasOrigin(before: map<Text, Content>, after: map<Text, Content>, name: Text, limit: nat,
                                     f: Text)
    requires limit <= U32_MAX && IsRotation(before, after, name, limit) && f in after
    ensures Origin(before, name, limit, f) in before && after[f] == before[Origin(before, name, limit, f)]
    ensures SlotOf(name, f).Some? ==> 0 < SlotOf(name, f).value <= limit
    ensures SlotOf(name, f).Some? && Origin(before, name, limit, f) == f ==> SlotOf(name, f).value == limit
  {
    assert Lookup(after, f) == Rotated(before, name, limit, f);
    if SlotOf(name, f).Some? {
      SlotNameOf(name, f);
      var j := SlotOf(name, f).value;
      if 0 < j {
        SlotsDiffer(name, j, j - 1);
      }
    }
  }

  lemma {:induction false} OriginsDiffer(before: map<Text, Content>, name: Text, limit: nat, f: Text, g: Text)
    requires limit <= U32_MAX && f != g
    requires SlotOf(name, f).Some? ==> 0 < SlotOf(name, f).value <= limit
    requires SlotOf(name, g).Some? ==> 0 < SlotOf(name, g).value <= limit
    requires SlotOf(name, f).Some? && Origin(before, name, limit, f) == f ==> SlotOf(name, f).value == limit
    requires SlotOf(name, g).Some? && Origin(before, name, limit, g) == g ==> SlotOf(name, g).value == limit
    ensures Origin(before, name, limit, f) != Origin(before, name, limit, g)
  {
    OriginSlot(before, name, limit, f);
    OriginSlot(before, name, limit, g);
  }

  /** The slot of the origin, which tells where the content went. */
  lemma {:induction false} OriginSlot(before: map<Text, Content>, name: Text, limit: nat, f: Text)
    requires limit <= U32_MAX && (SlotOf(name, f).Some? ==> 0 < SlotOf(name, f).value <= limit)
    ensures var origin := Origin(before, name, limit, f);
            && (SlotOf(name, f).None? ==> origin == f)
            && (SlotOf(name, f).Some? && origin != f ==>
                  SlotOf(name, origin) == Some(SlotOf(name, f).value - 1) && f == SlotName(name, SlotOf(name, f).value))
            && (SlotOf(name, f).Some? ==> f == SlotName(name, SlotOf(name, f).value))
  {
    if SlotOf(name, f).Some? {
      SlotNameOf(name, f);
      SlotOfName(name, SlotOf(name, f).value - 1);
    }
  }

  /** A rotation that fails for want of a log file has still dropped the last backup and left slot 1 empty. */
  lemma {:induction false} FailedRotationStillShifts(before: map<Text, Content>, after: map<Text, Content>, name: Text,
                                                     limit: nat, stack: seq<Content>)
    requires 2 <= limit <= U32_MAX && name !in before && |stack| == limit
    requires BackupsAre(before, name, stack) && IsRotation(before, after, name, limit)
    ensures SlotName(name, 1) !in after
    ensures forall i :: 1 < i <= limit ==> Lookup(after, SlotName(name, i)) == Some(stack[i - 2])
  {
    SlotOfName(name, 1);
    IndexOfSlot(name, 1);
    assert Lookup(after, SlotName(name, 1)) == Rotated(before, name, limit, SlotName(name, 1));
    forall i | 1 < i <= limit ensures Lookup(after, SlotName(name, i)) == Some(stack[i - 2]) {
      assert Lookup(before, SlotName(name, i - 1)) == Some(stack[i - 2]);
      OnlyExcessAndReplacedAreLost(before, after, name, limit, i - 1);
    }
  }
}
