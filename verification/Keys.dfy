/** Byte keys of the on-disk tables. */
module Keys {
  import opened Types

  const ADDRESS_SIZE: nat := 20

  function Pow256(n: nat): (r: nat)
    ensures r > 0
  {
    if n == 0 then 1 else 256 * Pow256(n - 1)
  }

  /** The low `width` bytes of a number, most significant byte first. */
  function BigEndian(n: nat, width: nat): (r: seq<nat>)
    ensures |r| == width
  {
    if width == 0 then [] else BigEndian(n / 256, width - 1) + [n % 256]
  }

  lemma {:induction false} BigEndianInjective(m: nat, n: nat, width: nat)
    requires m < Pow256(width) && n < Pow256(width)
    requires BigEndian(m, width) == BigEndian(n, width)
    ensures m == n
  {
    if width > 0 {
      var a, b := BigEndian(m, width), BigEndian(n, width);
      assert a[..width - 1] == BigEndian(m / 256, width - 1);
      assert b[..width - 1] == BigEndian(n / 256, width - 1);
      assert a[width - 1] == m % 256 && b[width - 1] == n % 256;
      BigEndianInjective(m / 256, n / 256, width - 1);
    }
  }

  /** Key of one row of the address index. */
  datatype AddressKey = AddressKey(address: Address, height: u64, index: nat, sent: bool)

  function AddressTxKey(k: AddressKey): (r: seq<nat>)
    ensures |r| == ADDRESS_SIZE + 8 + 4 + 1
  {
    BigEndian(k.address, ADDRESS_SIZE) + BigEndian(k.height, 8) + BigEndian(k.index, 4) + [if k.sent then 1 else 0]
  }

  predicate InRange(k: AddressKey)
  {
    k.address < Pow256(ADDRESS_SIZE) && k.height < Pow256(8) && k.index < Pow256(4)
  }

  /** The four fields of a row sit at fixed places of its key. */
  lemma KeyFields(k: AddressKey)
    ensures var key := AddressTxKey(k);
            key[..20] == BigEndian(k.address, 20) && key[20..28] == BigEndian(k.height, 8)
            && key[28..32] == BigEndian(k.index, 4) && key[32] == if k.sent then 1 else 0
  {
  }

  /** A key starts with an address exactly when the row is that address's row. */
  lemma AddressPrefix(k: AddressKey, address: Address)
    requires InRange(k) && address < Pow256(ADDRESS_SIZE)
    ensures BigEndian(address, ADDRESS_SIZE) <= AddressTxKey(k) <==> k.address == address
  {
    KeyFields(k);
    if BigEndian(address, ADDRESS_SIZE) <= AddressTxKey(k) { BigEndianInjective(k.address, address, 20); }
  }

  /** Two rows never share a key. */
  lemma AddressKeyInjective(k: AddressKey, j: AddressKey)
    requires InRange(k) && InRange(j)
    requires AddressTxKey(k) == AddressTxKey(j)
    ensures k == j
  {
    KeyFields(k);
    KeyFields(j);
    BigEndianInjective(k.address, j.address, 20);
    BigEndianInjective(k.height, j.height, 8);
    BigEndianInjective(k.index, j.index, 4);
  }

  lemma PowValues()
    ensures Pow256(4) == U32_MAX + 1 && Pow256(8) == U64_MAX + 1
  {
    assert Pow256(2) == 0x1_0000 && Pow256(4) == 0x1_0000 * 0x1_0000;
    assert Pow256(6) == 0x1_0000 * Pow256(4) && Pow256(8) == 0x1_0000 * Pow256(6);
  }
}
