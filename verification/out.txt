
Dafny program verifier finished with 2397 verified, 0 errors
exit 0 280s
