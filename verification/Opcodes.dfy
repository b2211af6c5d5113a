/** The opcode table and the gas prices of ethereum/opcodes.py. */
module Opcodes {
  import opened ByteStrings

  const STOP: Byte := 0x00
  const EXP: Byte := 0x0a
  const SHA3: Byte := 0x20
  const BALANCE: Byte := 0x31
  const CALLDATACOPY: Byte := 0x37
  const CODECOPY: Byte := 0x39
  const EXTCODESIZE: Byte := 0x3b
  const EXTCODECOPY: Byte := 0x3c
  const RETURNDATACOPY: Byte := 0x3e
  const POP: Byte := 0x50
  const MLOAD: Byte := 0x51
  const MSTORE: Byte := 0x52
  const MSTORE8: Byte := 0x53
  const SLOAD: Byte := 0x54
  const SSTORE: Byte := 0x55
  const JUMP: Byte := 0x56
  const JUMPI: Byte := 0x57
  const PC: Byte := 0x58
  const GAS: Byte := 0x5a
  const JUMPDEST: Byte := 0x5b
  const CREATE: Byte := 0xf0
  const CALL: Byte := 0xf1
  const CALLCODE: Byte := 0xf2
  const RETURN: Byte := 0xf3
  const DELEGATECALL: Byte := 0xf4
  const CALLBLACKBOX: Byte := 0xf5
  const STATICCALL: Byte := 0xfa
  const REVERT: Byte := 0xfd
  const SUICIDE: Byte := 0xff

  /** Arguments popped, results pushed, base fee. */
  datatype OpInfo = OpInfo(ins: nat, outs: nat, fee: nat)

  function Info(op: Byte): Option<OpInfo> {
    if op < 0x20 then InfoArithmetic(op)
    else if op < 0x50 then InfoEnvironment(op)
    else if op < 0x60 then InfoMachine(op)
    else if op < 0x80 then Some(OpInfo(0, 1, 3))
    else if op < 0x90 then Some(OpInfo(op - 0x7f, op - 0x7e, 3))
    else if op < 0xa0 then Some(OpInfo(op - 0x8e, op - 0x8e, 3))
    else InfoSystem(op)
  }

  function InfoArithmetic(op: Byte): Option<OpInfo> {
    if op == STOP then Some(OpInfo(0, 0, 0))
    else if op == 0x01 || op == 0x03 then Some(OpInfo(2, 1, 3))
    else if op == 0x08 || op == 0x09 then Some(OpInfo(3, 1, 8))
    else if op == EXP then Some(OpInfo(2, 1, 10))
    else if op <= 0x0b then Some(OpInfo(2, 1, 5))
    else if op < 0x10 || op > 0x1a then None
    else if op == 0x15 || op == 0x19 then Some(OpInfo(1, 1, 3))
    else Some(OpInfo(2, 1, 3))
  }

  function InfoEnvironment(op: Byte): Option<OpInfo> {
    if op == SHA3 then Some(OpInfo(2, 1, 30))
    else if op < 0x30 then None
    else if op == BALANCE || op == EXTCODESIZE || op == 0x40 then Some(OpInfo(1, 1, 20))
    else if op == 0x35 then Some(OpInfo(1, 1, 3))
    else if op == CALLDATACOPY || op == CODECOPY || op == RETURNDATACOPY then Some(OpInfo(3, 0, 3))
    else if op == EXTCODECOPY then Some(OpInfo(4, 0, 20))
    else if op <= 0x3d || (0x41 <= op && op <= 0x45) then Some(OpInfo(0, 1, 2))
    else None
  }

  function InfoMachine(op: Byte): Option<OpInfo> {
    if op == POP then Some(OpInfo(1, 0, 2))
    else if op == MLOAD then Some(OpInfo(1, 1, 3))
    else if op == MSTORE || op == MSTORE8 then Some(OpInfo(2, 0, 3))
    else if op == SLOAD then Some(OpInfo(1, 1, 50))
    else if op == SSTORE then Some(OpInfo(2, 0, 0))
    else if op == JUMP then Some(OpInfo(1, 0, 8))
    else if op == JUMPI then Some(OpInfo(2, 0, 10))
    else if 0x58 <= op && op <= 0x5a then Some(OpInfo(0, 1, 2))
    else if op == JUMPDEST then Some(OpInfo(0, 0, 1))
    else None
  }

  function InfoSystem(op: Byte): Option<OpInfo> {
    if 0xa0 <= op && op <= 0xa4 then Some(OpInfo(2 + (op - 0xa0), 0, 375 * (1 + (op - 0xa0))))
    else if op == CREATE then Some(OpInfo(3, 1, 32000))
    else if op == CALL || op == CALLCODE || op == CALLBLACKBOX then Some(OpInfo(7, 1, 40))
    else if op == RETURN || op == REVERT then Some(OpInfo(2, 0, 0))
    else if op == DELEGATECALL || op == STATICCALL then Some(OpInfo(6, 1, 40))
    else if op == SUICIDE then Some(OpInfo(1, 0, 0))
    else None
  }

  predicate IsMetropolis(op: Byte) {
    op == 0x3d || op == RETURNDATACOPY || op == STATICCALL || op == REVERT
  }

  predicate IsPush(op: Byte) { 0x60 <= op <= 0x7f }

  const GMEMORY := 3
  const GQUADRATICMEMDENOM := 512
  const GEXPONENTBYTE := 10
  const EXP_SUPPLEMENTAL_GAS := 40
  const GCOPY := 3
  const GCONTRACTBYTE := 200
  const GCALLVALUETRANSFER := 9000
  const GLOGBYTE := 8
  const GTXCOST := 21000
  const GTXDATAZERO := 4
  const GTXDATANONZERO := 68
  const GSHA3WORD := 6
  const GSTIPEND := 2300
  const GCALLNEWACCOUNT := 25000
  const GSUICIDEREFUND := 24000
  const GSTORAGEREFUND := 15000
  const GSTORAGEKILL := 5000
  const GSTORAGEMOD := 5000
  const GSTORAGEADD := 20000
  const SLOAD_SUPPLEMENTAL_GAS := 150
  const CALL_SUPPLEMENTAL_GAS := 660
  const EXTCODELOAD_SUPPLEMENTAL_GAS := 680
  const BALANCE_SUPPLEMENTAL_GAS := 380
  const CALL_CHILD_LIMIT_DENOM := 64
  const SUICIDE_SUPPLEMENTAL_GAS := 5000
  const MAX_DEPTH := 1024
}
