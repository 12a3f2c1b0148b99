/**
 * A Rust `f64`, kept as its 64-bit IEEE 754 pattern. The model never computes
 * with it: rendering, parsing and decomposing a float are done outside the
 * model and enter it as parameters.
 */
module Float {

  datatype F64 = F64(bits: bv64)
}
