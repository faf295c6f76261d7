/** Four-level translation tables with a 4 KB granule: format, walk and tree shape. */
module PageTableFormat {
  import opened PhysicalPages

  /** One past the largest physical address a descriptor can hold. */
  const ADDRESS_LIMIT: nat := 0x1_0000_0000_0000
  /** Number of virtual pages a four-level walk distinguishes. */
  const VPN_LIMIT: nat := 0x10_0000_0000

  /** A descriptor, field by field. `table` is bit 1, which marks a table above level 3 and a page at level 3. */
  datatype Desc = Desc(valid: bool, table: bool, addr: nat, accessed: bool, device: bool, inner: bool,
                       readOnly: bool, user: bool, uxn: bool, pxn: bool)

  const ZERO: Desc := Desc(false, false, 0, false, false, false, false, false, false, false)

  type Table = s: seq<Desc> | |s| == 512 witness seq(512, _ => ZERO)

  function ZeroTable(): Table {
    seq(512, _ => ZERO)
  }

  /** Physical memory, as far as it holds tables: from page address to its 512 entries. */
  type Memory = map<nat, Table>

  datatype Flags = Flags(read: bool, write: bool, exec: bool, device: bool, user: bool)

  /** `addr & DESC_ADDR_MASK`. */
  function AddrMask(addr: nat): nat {
    addr % 0x1_0000_0000_0000 - addr % 4096
  }

  function TableDesc(addr: nat): Desc {
    ZERO.(valid := true, table := true, addr := AddrMask(addr))
  }

  function PageDescriptor(paddr: nat, flags: Flags): Desc {
    Desc(valid := true, table := true, addr := AddrMask(paddr), accessed := true,
         device := flags.device,
         inner := !flags.device,
         readOnly := !flags.write,
         user := flags.user,
         uxn := flags.device || !flags.exec || !flags.user,
         pxn := flags.device || !flags.exec || flags.user)
  }

  // ----- What the hardware grants on a leaf

  /** A page without the access flag faults on its first use. */
  predicate Usable(d: Desc) {
    d.valid && d.table && d.accessed
  }

  predicate UserReads(d: Desc) {
    Usable(d) && d.user
  }

  predicate UserWrites(d: Desc) {
    Usable(d) && d.user && !d.readOnly
  }

  /** Execution in user mode depends on UXN alone. */
  predicate UserExecutes(d: Desc) {
    Usable(d) && !d.uxn
  }

  /** User mode can use the page in some way. */
  predicate UserReaches(d: Desc) {
    UserReads(d) || UserWrites(d) || UserExecutes(d)
  }

  predicate KernelWrites(d: Desc) {
    Usable(d) && !d.readOnly
  }

  /** The kernel never executes what user mode can write, whatever PXN says. */
  predicate KernelExecutes(d: Desc) {
    Usable(d) && !d.pxn && !UserWrites(d)
  }

  /** The leaf of a page at `pa` grants exactly what was asked for. */
  predicate Grants(d: Desc, pa: nat, flags: Flags) {
    && d.addr == pa && Usable(d) && (d.device <==> flags.device) && (d.inner <==> !flags.device)
    && (UserReads(d) <==> flags.user)
    && (UserWrites(d) <==> flags.user && flags.write)
    && (UserExecutes(d) <==> flags.user && flags.exec && !flags.device)
    && (KernelWrites(d) <==> flags.write)
    && (KernelExecutes(d) <==> flags.exec && !flags.user && !flags.device)
  }

  lemma DescriptorGrants(pa: nat, flags: Flags)
    requires pa % 4096 == 0 && pa < ADDRESS_LIMIT
    ensures Grants(PageDescriptor(pa, flags), pa, flags)
  {
    MaskKeeps(pa);
  }

  /** `(vaddr >> (39 - level * 9)) & 0x1ff`. */
  function Index(va: nat, level: nat): nat
    requires level <= 3
  {
    match level
    case 0 => va / 0x80_0000_0000 % 512
    case 1 => va / 0x4000_0000 % 512
    case 2 => va / 0x20_0000 % 512
    case 3 => va / 0x1000 % 512
  }

  /** The virtual page number the walk sees. */
  function Vpn(va: nat): nat {
    va / 4096 % 0x10_0000_0000
  }

  /** The leading `9 * level` bits of a 36-bit page number. */
  function Prefix(vpn: nat, level: nat): nat
    requires level <= 4
  {
    match level
    case 0 => vpn / 0x10_0000_0000
    case 1 => vpn / 0x800_0000
    case 2 => vpn / 0x4_0000
    case 3 => vpn / 512
    case 4 => vpn
  }

  lemma PrefixStep(vpn: nat, level: nat)
    requires level <= 3
    ensures Prefix(vpn, level) == Prefix(vpn, level + 1) / 512
    ensures Prefix(vpn, level + 1) == Prefix(vpn, level) * 512 + Prefix(vpn, level + 1) % 512
  {
  }

  /** Quotient and remainder are what they seem. */
  lemma Quotient(n: nat, m: nat, q: nat, r: nat)
    requires n == m * q + r && r < m
    ensures n / m == q && n % m == r
  {
    var d := n / m;
    assert n == m * d + n % m;
    assert m * (d + 1) == m * d + m && m * (q + 1) == m * q + m;
    if d < q {
      Monotone(m, d + 1, q);
    } else if q < d {
      Monotone(m, q + 1, d);
    }
  }

  lemma Monotone(m: nat, a: nat, b: nat)
    requires a <= b
    ensures m * a <= m * b
  {
  }

  /** The address field holds any page address below 2^48. */
  lemma MaskKeeps(addr: nat)
    requires addr % 4096 == 0 && addr < 0x1_0000_0000_0000
    ensures AddrMask(addr) == addr
  {
    Quotient(addr, 0x1_0000_0000_0000, 0, addr);
  }

  /** Leading digits do not matter to the last one. */
  lemma LastDigit(x: nat, d: nat)
    ensures (512 * x + d) % 512 == d % 512
  {
    Quotient(512 * x + d, 512, x + d / 512, d % 512);
  }

  lemma Digit0(k: nat, d: nat, b: nat, a: nat)
    requires d < 512 && b < 0x800_0000 && a < 4096
    ensures (0x1_0000_0000_0000 * k + 0x80_0000_0000 * d + 4096 * b + a) / 0x80_0000_0000 % 512 == d
  {
    var va := 0x1_0000_0000_0000 * k + 0x80_0000_0000 * d + 4096 * b + a;
    Quotient(va, 0x80_0000_0000, 512 * k + d, 4096 * b + a);
    LastDigit(k, d);
  }

  lemma Digit1(k: nat, d: nat, b: nat, a: nat)
    requires d < 0x4_0000 && b < 0x4_0000 && a < 4096
    ensures (0x1_0000_0000_0000 * k + 0x4000_0000 * d + 4096 * b + a) / 0x4000_0000 % 512 == d % 512
  {
    var va := 0x1_0000_0000_0000 * k + 0x4000_0000 * d + 4096 * b + a;
    Quotient(va, 0x4000_0000, 512 * (512 * k) + d, 4096 * b + a);
    LastDigit(512 * k, d);
  }

  lemma Digit2(k: nat, d: nat, b: nat, a: nat)
    requires d < 0x800_0000 && b < 512 && a < 4096
    ensures (0x1_0000_0000_0000 * k + 0x20_0000 * d + 4096 * b + a) / 0x20_0000 % 512 == d % 512
  {
    var va := 0x1_0000_0000_0000 * k + 0x20_0000 * d + 4096 * b + a;
    Quotient(va, 0x20_0000, 512 * (0x4_0000 * k) + d, 4096 * b + a);
    LastDigit(0x4_0000 * k, d);
  }

  lemma Digit3(k: nat, d: nat)
    requires d < 0x10_0000_0000
    ensures (0x10_0000_0000 * k + d) % 512 == d % 512
  {
    LastDigit(0x800_0000 * k, d);
  }

  /** The shifts and masks of the walk are the base-512 digits of the page number. */
  lemma IndexIsDigit(va: nat, level: nat)
    requires level <= 3
    ensures Index(va, level) == Prefix(Vpn(va), level + 1) % 512
    ensures Prefix(Vpn(va), 0) == 0
  {
    var q, a := va / 4096, va % 4096;
    var k, r := q / 0x10_0000_0000, q % 0x10_0000_0000;
    match level
    case 0 => Digit0(k, r / 0x800_0000, r % 0x800_0000, a);
    case 1 => Digit1(k, r / 0x4_0000, r % 0x4_0000, a);
    case 2 => Digit2(k, r / 512, r % 512, a);
    case 3 => Digit3(k, r);
  }
}
