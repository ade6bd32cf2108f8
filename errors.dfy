/** The ways a run of supermake stops before producing a makefile. */
module Errors {

  datatype Error =
    | HelpRequested                      // a help token was given: the usage text is printed instead
    | InvalidArgument(argument: string)  // an argument matches none of the accepted patterns
    | PrintWithMake                      // --print together with --make
    | RunWithLib                         // --run while building a library
    | RunWithoutMake                     // --run without --make
    | BinaryWithLib                      // --binary= together with --lib=
    | ReadError(path: string)            // open()/read() of a file failed
    | NoSourceFiles                      // the directory holds no C or C++ source file
    | HppComparison(header: string)      // the Python 3 TypeError of the `.hpp` test (see Findings)
}
