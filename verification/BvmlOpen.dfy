/** Opening a linear-algebra context: the kernels' source is assembled and loaded. */
module BvmlOpen {
  import opened Bits
  import opened Bvrt
  import opened Kernels
  import opened Bvbc
  import opened BvbcFile
  import opened Bradc
  import opened BradcAssembler
  import opened KernelSource
  import Bvml

  /** bvml_open: fails for no memory only, because the source of the kernels assembles. */
  method Open(F: Fpu, memBytes: nat) returns (ctx: Bvml.Bvml?)
    requires MovExact(F)
    ensures ctx == null <==> memBytes == 0
    ensures ctx != null ==> fresh(ctx) && ctx.Valid() && ctx.dev.F == F && ctx.memBytes == memBytes
    ensures ctx != null ==> fresh(ctx.dev) && fresh(ctx.dev.mem) && fresh(ctx.dev.lanes) && fresh(ctx.dev.active)
  {
    hide MovExact, Assemble, LIBRARY_TEXT, Bvml.Library, Bvml.LibraryKernels;
    if memBytes == 0 { return null; }
    var img := new ImageFile();
    var assembler := new Assembler(img);
    LibraryAssembles();
    var ok := assembler.Run(LIBRARY_TEXT);
    ctx := new Bvml.Bvml(F, memBytes, img);
  }
}
