/** The multiply instructions of the RISC-V Unprivileged ISA 20191213, section 7.1, on 32-bit words. */
module MulSpec {
  import opened BitSlices
  import opened BaughWooley
  import opened WordArith

  datatype MulOp = Mul | Mulh | Mulhsu | Mulhu

  /** The exact product of the operands as each instruction reads them. */
  function Product(op: MulOp, a: nat, b: nat): int {
    Value(a, 32, op.Mulhu?) * Value(b, 32, op.Mulhu? || op.Mulhsu?)
  }

  /** MUL delivers the low word of the product, the others the high word. */
  function Answer(op: MulOp, a: nat, b: nat): nat {
    if op.Mul? then Wrap(Product(op, a, b), 32) else High(Wrap(Product(op, a, b), 64), 32)
  }
}
