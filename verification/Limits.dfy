/**
 How many volumes an instance may hold: limits.go, memoryToBytes in metadata.go, and
 the two places that apply them (NodeGetInfo and the controller's capacity check).
 Memory sizes are 64-bit: a shift drops the bits that leave the word.
 */
module Limits {
  import opened GoText
  import opened Sizes

  const MAX_PERSISTENT_ATTACHMENTS := 8
  const MAX_ATTACHMENTS := 64
  const MIB := 0x10_0000
  const MIN_MEMORY := GIB

  // maxVolumeAttachments, on an unsigned 64-bit byte count.
  function MaxVolumeAttachments(memoryBytes: int): int {
    var attachments := memoryBytes / GIB;
    if attachments > MAX_ATTACHMENTS then MAX_ATTACHMENTS
    else if attachments < MAX_PERSISTENT_ATTACHMENTS then MAX_PERSISTENT_ATTACHMENTS
    else attachments
  }

  // `uint(sizeMB) << 20`.
  function ShiftedMemory(sizeMB: int): int {
    sizeMB * MIB % TWO_64
  }

  // The node agent's conversion.
  function MemoryToBytes(sizeMB: int): int {
    if sizeMB < 0x400 then MIN_MEMORY else ShiftedMemory(sizeMB)
  }

  // What NodeGetInfo reports for an instance.
  function ReportedLimit(memoryMB: int, disks: nat): int {
    MaxVolumeAttachments(MemoryToBytes(memoryMB)) - disks
  }

  // What the controller checks a publish against.
  function EnforcedLimit(memoryMB: int, disks: nat): int {
    MaxVolumeAttachments(ShiftedMemory(memoryMB)) - disks
  }

  // The two sides convert memory by different rules. They agree on every memory size
  // an instance can have, and on a negative size exactly when the shifted word still
  // falls below the persistent minimum.
  lemma LimitsAgree(memoryMB: int, disks: nat)
    requires IsInt(memoryMB)
    ensures ReportedLimit(memoryMB, disks) == EnforcedLimit(memoryMB, disks)
      <==> memoryMB >= 0 || memoryMB % 0x1000_0000_0000 < 9 * 0x400
  {
    if memoryMB < 0 {
      ShiftIsModulo(memoryMB);
    }
  }

  lemma ShiftIsModulo(sizeMB: int)
    ensures ShiftedMemory(sizeMB) == (sizeMB % 0x1000_0000_0000) * MIB
  {
    var q, r := sizeMB / 0x1000_0000_0000, sizeMB % 0x1000_0000_0000;
    assert sizeMB * MIB == q * TWO_64 + r * MIB;
    assert 0 <= r * MIB < TWO_64;
  }

  // The limit never leaves [8, 64] before disks are taken off, and grows with memory.
  lemma LimitIsClampedAndMonotone(a: int, b: int)
    requires 0 <= a <= b < TWO_64
    ensures MAX_PERSISTENT_ATTACHMENTS <= MaxVolumeAttachments(a) <= MaxVolumeAttachments(b) <= MAX_ATTACHMENTS
    ensures 8 * GIB <= a < 65 * GIB ==> MaxVolumeAttachments(a) == a / GIB
  {
  }

  // Both limits in terms of the memory: one volume per GiB, at least 8 and at most 64, less
  // the disks.
  lemma LimitsExactly(memoryMB: int, disks: nat)
    requires 0 <= memoryMB < 0x1000_0000_0000
    ensures EnforcedLimit(memoryMB, disks) ==
      (if memoryMB < 8 * 0x400 then 8 else if memoryMB >= 64 * 0x400 then 64 else memoryMB / 0x400) - disks
    ensures ReportedLimit(memoryMB, disks) == EnforcedLimit(memoryMB, disks)
  {
    ShiftIsModulo(memoryMB);
    assert memoryMB * MIB / GIB == memoryMB / 0x400;
    LimitsAgree(memoryMB, disks);
  }
}
