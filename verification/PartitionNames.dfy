/** Partition device names and the number read back from them
    (internal/disk/partition.go, internal/steps/bootc.go). */
module PartitionNames {
  import opened Text

  /** The partitions a partitioner made. `boot` is empty when there is no separate /boot. */
  datatype Layout = Layout(disk: string, esp: string, boot: string, root: string)

  /** "p" when the disk's name ends in a digit, so the number stays readable. */
  function PartSuffix(disk: string): string {
    if disk == "" then ""
    else if IsDigit(disk[|disk| - 1]) then "p"
    else ""
  }

  function PartName(disk: string, num: nat): string {
    disk + PartSuffix(disk) + Itoa(num)
  }

  /** The layout of PartitionGrub2: ESP, /boot, root. */
  function Grub2Layout(disk: string): Layout {
    Layout(disk, PartName(disk, 1), PartName(disk, 2), PartName(disk, 3))
  }

  /** The layout of PartitionSystemdBoot: ESP, root. */
  function SystemdBootLayout(disk: string): Layout {
    Layout(disk, PartName(disk, 1), "", PartName(disk, 2))
  }

  /** rootPartNum: the number at the end of the layout's root partition, or None. */
  function RootPartNum(l: Layout): Option<nat> {
    Atoi(TrimPrefix(TrimPrefix(l.root, l.disk), "p"))
  }

  /** A layout's root number is the number its root was named with, so the
      retag addresses the partition that was formatted. */
  lemma RootPartNumOfPartName(l: Layout, n: nat)
    requires l.root == PartName(l.disk, n)
    ensures RootPartNum(l) == Some(n)
  {
    var digits := Itoa(n);
    var suffix := PartSuffix(l.disk);
    assert l.root == l.disk + (suffix + digits);
    assert TrimPrefix(l.root, l.disk) == suffix + digits;
    assert IsDigit(digits[0]);
    assert TrimPrefix(suffix + digits, "p") == digits by {
      if suffix == "" {
        assert suffix + digits == digits;
        assert digits[0] != 'p';
      } else {
        assert (suffix + digits)[1..] == digits;
      }
    }
    AtoiItoa(n);
  }

  /** Different numbers name different partitions, and none is the disk itself. */
  lemma PartNameInjective(disk: string, m: nat, n: nat)
    ensures PartName(disk, m) == PartName(disk, n) <==> m == n
    ensures PartName(disk, m) != disk
  {
    if PartName(disk, m) == PartName(disk, n) {
      RootPartNumOfPartName(Layout(disk, "", "", PartName(disk, m)), m);
      RootPartNumOfPartName(Layout(disk, "", "", PartName(disk, n)), n);
    }
    assert |PartName(disk, m)| > |disk|;
  }

  predicate EndsInDigit(s: string) {
    s != "" && '0' <= s[|s| - 1] <= '9'
  }

  /** Partitions of different disks have different names, unless one disk is named like the other,
      which ends in a digit, with a p behind it. */
  lemma AcrossDisks(d: string, e: string, m: nat, n: nat)
    ensures PartName(d, m) == PartName(e, n) <==>
      m == n && (d == e || (EndsInDigit(d) && e == d + "p") || (EndsInDigit(e) && d == e + "p"))
  {
    var a, b := d + PartSuffix(d), e + PartSuffix(e);
    if PartName(d, m) == PartName(e, n) {
      SameDigits(a, m, b, n);
      assert a[..|d|] == d && b[..|e|] == e;
    }
    if EndsInDigit(d) && e == d + "p" {
      assert a == e == b;
    }
    if EndsInDigit(e) && d == e + "p" {
      assert b == d == a;
    }
  }

  lemma SameDigits(a: string, m: nat, b: string, n: nat)
    requires !EndsInDigit(a) && !EndsInDigit(b) && a + Itoa(m) == b + Itoa(n)
    ensures a == b && m == n
  {
    hide Itoa;
    if |b| > |a| {
      LongerEndsInDigit(a, Itoa(m), b, Itoa(n));
    } else if |a| > |b| {
      LongerEndsInDigit(b, Itoa(n), a, Itoa(m));
    }
    assert (a + Itoa(m))[..|a|] == a && (b + Itoa(n))[..|b|] == b;
    assert (a + Itoa(m))[|a|..] == Itoa(m) && (b + Itoa(n))[|b|..] == Itoa(n);
    AtoiItoa(m);
    AtoiItoa(n);
  }

  lemma LongerEndsInDigit(a: string, digits: string, b: string, others: string)
    requires |b| > |a| && (forall c <- digits :: IsDigit(c)) && a + digits == b + others
    ensures EndsInDigit(b)
  {
    var k := |b| - 1;
    assert (a + digits)[k] == digits[k - |a|] && digits[k - |a|] in digits;
    assert (b + others)[k] == b[k];
  }

  /** The numbers are those of the lines of the scripts: ESP, /boot if it is separate, root. */
  lemma LayoutNames()
    ensures Grub2Layout("/dev/sda") == Layout("/dev/sda", "/dev/sda1", "/dev/sda2", "/dev/sda3")
    ensures SystemdBootLayout("/dev/nvme0n1") == Layout("/dev/nvme0n1", "/dev/nvme0n1p1", "", "/dev/nvme0n1p2")
  {}
}
