/** The enumerations the authentication code switches on. Their declaring
    files (OtpPurposes, Role, AuthProvider, STATUS) are not part of this model:
    each enum is represented by its constant's name, and the constants the
    modelled code mentions are declared here; any other name stands for a
    constant those files may declare besides them. */
module Enums {

  datatype OtpPurpose = OtpPurpose(name: string)

  const Register := OtpPurpose("REGISTER")
  const Login := OtpPurpose("LOGIN")
  const ForgetPassword := OtpPurpose("FORGET_PASSWORD")
  const ChangePassword := OtpPurpose("CHANGE_PASSWORD")
  const AddEmail := OtpPurpose("ADD_EMAIL")
  const AddPhone := OtpPurpose("ADD_PHONE")
  const Checkout := OtpPurpose("CHECKOUT")

  datatype Role = Role(name: string)

  const Customer := Role("CUSTOMER")

  datatype AuthProvider = AuthProvider(name: string)

  const Local := AuthProvider("LOCAL")

  datatype Status = Status(name: string)

  const Offline := Status("OFFLINE")

  /** A Java enum constant's name is an identifier: it never contains `:`. */
  predicate IsConstantName(name: string)
  {
    |name| > 0 && forall i :: 0 <= i < |name| ==> name[i] == '_' || 'A' <= name[i] <= 'Z' || '0' <= name[i] <= '9'
  }
}
