// The S-box of the app-cert cipher (src/appcert_cipher.cpp:116-135), which is
// not the standard one, and its inverse. The table has a function a row, one
// for each value of the high four bits; the low four bits select its entry.
module CipherSbox {

  function Sub0(x: bv8): bv8 {
    if x & 8 == 0 then
      if x & 4 == 0 then (if x & 2 == 0 then (if x & 1 == 0 then 0xC5 else 0x57) else (if x & 1 == 0 then 0x4D else 0x6C))
      else (if x & 2 == 0 then (if x & 1 == 0 then 0x3A else 0x95) else (if x & 1 == 0 then 0x05 else 0xE0))
    else
      if x & 4 == 0 then (if x & 2 == 0 then (if x & 1 == 0 then 0xA3 else 0xBA) else (if x & 1 == 0 then 0x36 else 0x1F))
      else (if x & 2 == 0 then (if x & 1 == 0 then 0xEA else 0x51) else (if x & 1 == 0 then 0x53 else 0x3B))
  }

  function Sub1(x: bv8): bv8 {
    if x & 8 == 0 then
      if x & 4 == 0 then (if x & 2 == 0 then (if x & 1 == 0 then 0x0E else 0x07) else (if x & 1 == 0 then 0x4E else 0x64))
      else (if x & 2 == 0 then (if x & 1 == 0 then 0x50 else 0x04) else (if x & 1 == 0 then 0x40 else 0xE8))
    else
      if x & 4 == 0 then (if x & 2 == 0 then (if x & 1 == 0 then 0x62 else 0x6E) else (if x & 1 == 0 then 0x9F else 0x2D))
      else (if x & 2 == 0 then (if x & 1 == 0 then 0x70 else 0x8B) else (if x & 1 == 0 then 0x28 else 0x49))
  }

  function Sub2(x: bv8): bv8 {
    if x & 8 == 0 then
      if x & 4 == 0 then (if x & 2 == 0 then (if x & 1 == 0 then 0xD5 else 0xF9) else (if x & 1 == 0 then 0x65 else 0x8D))
      else (if x & 2 == 0 then (if x & 1 == 0 then 0x74 else 0x68) else (if x & 1 == 0 then 0x7C else 0x6F))
    else
      if x & 4 == 0 then (if x & 2 == 0 then (if x & 1 == 0 then 0x0A else 0x6A) else (if x & 1 == 0 then 0xB3 else 0xAF))
      else (if x & 2 == 0 then (if x & 1 == 0 then 0x38 else 0xFE) else (if x & 1 == 0 then 0x7E else 0x8A))
  }

  function Sub3(x: bv8): bv8 {
    if x & 8 == 0 then
      if x & 4 == 0 then (if x & 2 == 0 then (if x & 1 == 0 then 0x47 else 0x7F) else (if x & 1 == 0 then 0xB0 else 0x16))
      else (if x & 2 == 0 then (if x & 1 == 0 then 0x00 else 0xD4) else (if x & 1 == 0 then 0x0F else 0x13))
    else
      if x & 4 == 0 then (if x & 2 == 0 then (if x & 1 == 0 then 0xC9 else 0x80) else (if x & 1 == 0 then 0x4A else 0xAC))
      else (if x & 2 == 0 then (if x & 1 == 0 then 0x8C else 0x4F) else (if x & 1 == 0 then 0xA7 else 0x98))
  }

  function Sub4(x: bv8): bv8 {
    if x & 8 == 0 then
      if x & 4 == 0 then (if x & 2 == 0 then (if x & 1 == 0 then 0x83 else 0x94) else (if x & 1 == 0 then 0x5D else 0x48))
      else (if x & 2 == 0 then (if x & 1 == 0 then 0xB4 else 0xE9) else (if x & 1 == 0 then 0x30 else 0x19))
    else
      if x & 4 == 0 then (if x & 2 == 0 then (if x & 1 == 0 then 0x03 else 0x99) else (if x & 1 == 0 then 0x25 else 0xBF))
      else (if x & 2 == 0 then (if x & 1 == 0 then 0x8E else 0x41) else (if x & 1 == 0 then 0xA0 else 0xE4))
  }

  function Sub5(x: bv8): bv8 {
    if x & 8 == 0 then
      if x & 4 == 0 then (if x & 2 == 0 then (if x & 1 == 0 then 0xC3 else 0xCF) else (if x & 1 == 0 then 0x2C else 0xAB))
      else (if x & 2 == 0 then (if x & 1 == 0 then 0xD2 else 0x32) else (if x & 1 == 0 then 0x1A else 0x0C))
    else
      if x & 4 == 0 then (if x & 2 == 0 then (if x & 1 == 0 then 0x11 else 0xB5) else (if x & 1 == 0 then 0x56 else 0x63))
      else (if x & 2 == 0 then (if x & 1 == 0 then 0x15 else 0xA6) else (if x & 1 == 0 then 0x69 else 0x0B))
  }

  function Sub6(x: bv8): bv8 {
    if x & 8 == 0 then
      if x & 4 == 0 then (if x & 2 == 0 then (if x & 1 == 0 then 0x88 else 0xBB) else (if x & 1 == 0 then 0x4C else 0x10))
      else (if x & 2 == 0 then (if x & 1 == 0 then 0xCB else 0x75) else (if x & 1 == 0 then 0xFA else 0x81))
    else
      if x & 4 == 0 then (if x & 2 == 0 then (if x & 1 == 0 then 0xF8 else 0xCD) else (if x & 1 == 0 then 0xA1 else 0xD6))
      else (if x & 2 == 0 then (if x & 1 == 0 then 0x97 else 0xB7) else (if x & 1 == 0 then 0x26 else 0xC6))
  }

  function Sub7(x: bv8): bv8 {
    if x & 8 == 0 then
      if x & 4 == 0 then (if x & 2 == 0 then (if x & 1 == 0 then 0x9E else 0xF1) else (if x & 1 == 0 then 0x5F else 0xE5))
      else (if x & 2 == 0 then (if x & 1 == 0 then 0xA9 else 0x87) else (if x & 1 == 0 then 0xC7 else 0xDC))
    else
      if x & 4 == 0 then (if x & 2 == 0 then (if x & 1 == 0 then 0x8F else 0x7A) else (if x & 1 == 0 then 0x86 else 0x20))
      else (if x & 2 == 0 then (if x & 1 == 0 then 0x9A else 0xD1) else (if x & 1 == 0 then 0x08 else 0xC2))
  }

  function Sub8(x: bv8): bv8 {
    if x & 8 == 0 then
      if x & 4 == 0 then (if x & 2 == 0 then (if x & 1 == 0 then 0x84 else 0x09) else (if x & 1 == 0 then 0x33 else 0x1B))
      else (if x & 2 == 0 then (if x & 1 == 0 then 0xDD else 0x1E) else (if x & 1 == 0 then 0xFD else 0x01))
    else
      if x & 4 == 0 then (if x & 2 == 0 then (if x & 1 == 0 then 0x71 else 0xDA) else (if x & 1 == 0 then 0x77 else 0x0D))
      else (if x & 2 == 0 then (if x & 1 == 0 then 0xD7 else 0xDE) else (if x & 1 == 0 then 0x93 else 0xCA))
  }

  function Sub9(x: bv8): bv8 {
    if x & 8 == 0 then
      if x & 4 == 0 then (if x & 2 == 0 then (if x & 1 == 0 then 0xA5 else 0xD0) else (if x & 1 == 0 then 0xE6 else 0x60))
      else (if x & 2 == 0 then (if x & 1 == 0 then 0x89 else 0x37) else (if x & 1 == 0 then 0xC8 else 0x21))
    else
      if x & 4 == 0 then (if x & 2 == 0 then (if x & 1 == 0 then 0x59 else 0x79) else (if x & 1 == 0 then 0x96 else 0xAD))
      else (if x & 2 == 0 then (if x & 1 == 0 then 0x24 else 0x34) else (if x & 1 == 0 then 0xB9 else 0x44))
  }

  function SubA(x: bv8): bv8 {
    if x & 8 == 0 then
      if x & 4 == 0 then (if x & 2 == 0 then (if x & 1 == 0 then 0xFC else 0xC1) else (if x & 1 == 0 then 0xAE else 0xF3))
      else (if x & 2 == 0 then (if x & 1 == 0 then 0x82 else 0x46) else (if x & 1 == 0 then 0x43 else 0x31))
    else
      if x & 4 == 0 then (if x & 2 == 0 then (if x & 1 == 0 then 0xE3 else 0x2E) else (if x & 1 == 0 then 0x4B else 0xFB))
      else (if x & 2 == 0 then (if x & 1 == 0 then 0x92 else 0x55) else (if x & 1 == 0 then 0xED else 0x45))
  }

  function SubB(x: bv8): bv8 {
    if x & 8 == 0 then
      if x & 4 == 0 then (if x & 2 == 0 then (if x & 1 == 0 then 0x76 else 0x6D) else (if x & 1 == 0 then 0xAA else 0x3F))
      else (if x & 2 == 0 then (if x & 1 == 0 then 0xF5 else 0x5A) else (if x & 1 == 0 then 0x91 else 0x78))
    else
      if x & 4 == 0 then (if x & 2 == 0 then (if x & 1 == 0 then 0x22 else 0x06) else (if x & 1 == 0 then 0xFF else 0xD9))
      else (if x & 2 == 0 then (if x & 1 == 0 then 0x35 else 0x7D) else (if x & 1 == 0 then 0x7B else 0xDB))
  }

  function SubC(x: bv8): bv8 {
    if x & 8 == 0 then
      if x & 4 == 0 then (if x & 2 == 0 then (if x & 1 == 0 then 0x54 else 0x12) else (if x & 1 == 0 then 0x9C else 0xD8))
      else (if x & 2 == 0 then (if x & 1 == 0 then 0xD3 else 0xEE) else (if x & 1 == 0 then 0x17 else 0x42))
    else
      if x & 4 == 0 then (if x & 2 == 0 then (if x & 1 == 0 then 0x52 else 0x3E) else (if x & 1 == 0 then 0xA4 else 0xE7))
      else (if x & 2 == 0 then (if x & 1 == 0 then 0xDF else 0x9D) else (if x & 1 == 0 then 0xF2 else 0xF4))
  }

  function SubD(x: bv8): bv8 {
    if x & 8 == 0 then
      if x & 4 == 0 then (if x & 2 == 0 then (if x & 1 == 0 then 0xEF else 0x73) else (if x & 1 == 0 then 0xF6 else 0x5E))
      else (if x & 2 == 0 then (if x & 1 == 0 then 0xB1 else 0x5B) else (if x & 1 == 0 then 0x18 else 0xE2))
    else
      if x & 4 == 0 then (if x & 2 == 0 then (if x & 1 == 0 then 0x9B else 0x58) else (if x & 1 == 0 then 0xA8 else 0x2A))
      else (if x & 2 == 0 then (if x & 1 == 0 then 0xE1 else 0x3D) else (if x & 1 == 0 then 0x90 else 0xB6))
  }

  function SubE(x: bv8): bv8 {
    if x & 8 == 0 then
      if x & 4 == 0 then (if x & 2 == 0 then (if x & 1 == 0 then 0x1C else 0xBD) else (if x & 1 == 0 then 0x61 else 0xEB))
      else (if x & 2 == 0 then (if x & 1 == 0 then 0x23 else 0xA2) else (if x & 1 == 0 then 0x67 else 0x39))
    else
      if x & 4 == 0 then (if x & 2 == 0 then (if x & 1 == 0 then 0xF0 else 0xBC) else (if x & 1 == 0 then 0xB2 else 0xF7))
      else (if x & 2 == 0 then (if x & 1 == 0 then 0x85 else 0x27) else (if x & 1 == 0 then 0x72 else 0xCC))
  }

  function SubF(x: bv8): bv8 {
    if x & 8 == 0 then
      if x & 4 == 0 then (if x & 2 == 0 then (if x & 1 == 0 then 0x29 else 0xB8) else (if x & 1 == 0 then 0x1D else 0xBE))
      else (if x & 2 == 0 then (if x & 1 == 0 then 0x66 else 0xC4) else (if x & 1 == 0 then 0x2F else 0xCE))
    else
      if x & 4 == 0 then (if x & 2 == 0 then (if x & 1 == 0 then 0x14 else 0x3C) else (if x & 1 == 0 then 0x6B else 0xEC))
      else (if x & 2 == 0 then (if x & 1 == 0 then 0x5C else 0x2B) else (if x & 1 == 0 then 0xC0 else 0x02))
  }

  function Sub(x: bv8): bv8 {
    if x & 0x80 == 0 then
      if x & 0x40 == 0 then
        if x & 0x20 == 0 then
          if x & 0x10 == 0 then Sub0(x) else Sub1(x)
        else
          if x & 0x10 == 0 then Sub2(x) else Sub3(x)
      else
        if x & 0x20 == 0 then
          if x & 0x10 == 0 then Sub4(x) else Sub5(x)
        else
          if x & 0x10 == 0 then Sub6(x) else Sub7(x)
    else
      if x & 0x40 == 0 then
        if x & 0x20 == 0 then
          if x & 0x10 == 0 then Sub8(x) else Sub9(x)
        else
          if x & 0x10 == 0 then SubA(x) else SubB(x)
      else
        if x & 0x20 == 0 then
          if x & 0x10 == 0 then SubC(x) else SubD(x)
        else
          if x & 0x10 == 0 then SubE(x) else SubF(x)
  }

  function Inv0(x: bv8): bv8 {
    if x & 8 == 0 then
      if x & 4 == 0 then (if x & 2 == 0 then (if x & 1 == 0 then 0x34 else 0x87) else (if x & 1 == 0 then 0xFF else 0x48))
      else (if x & 2 == 0 then (if x & 1 == 0 then 0x15 else 0x06) else (if x & 1 == 0 then 0xB9 else 0x11))
    else
      if x & 4 == 0 then (if x & 2 == 0 then (if x & 1 == 0 then 0x7E else 0x81) else (if x & 1 == 0 then 0x28 else 0x5F))
      else (if x & 2 == 0 then (if x & 1 == 0 then 0x57 else 0x8B) else (if x & 1 == 0 then 0x10 else 0x36))
  }

  function Inv1(x: bv8): bv8 {
    if x & 8 == 0 then
      if x & 4 == 0 then (if x & 2 == 0 then (if x & 1 == 0 then 0x63 else 0x58) else (if x & 1 == 0 then 0xC1 else 0x37))
      else (if x & 2 == 0 then (if x & 1 == 0 then 0xF8 else 0x5C) else (if x & 1 == 0 then 0x33 else 0xC6))
    else
      if x & 4 == 0 then (if x & 2 == 0 then (if x & 1 == 0 then 0xD6 else 0x47) else (if x & 1 == 0 then 0x56 else 0x83))
      else (if x & 2 == 0 then (if x & 1 == 0 then 0xE0 else 0xF2) else (if x & 1 == 0 then 0x85 else 0x0B))
  }

  function Inv2(x: bv8): bv8 {
    if x & 8 == 0 then
      if x & 4 == 0 then (if x & 2 == 0 then (if x & 1 == 0 then 0x7B else 0x97) else (if x & 1 == 0 then 0xB8 else 0xE4))
      else (if x & 2 == 0 then (if x & 1 == 0 then 0x9C else 0x4A) else (if x & 1 == 0 then 0x6E else 0xED))
    else
      if x & 4 == 0 then (if x & 2 == 0 then (if x & 1 == 0 then 0x1E else 0xF0) else (if x & 1 == 0 then 0xDB else 0xFD))
      else (if x & 2 == 0 then (if x & 1 == 0 then 0x52 else 0x1B) else (if x & 1 == 0 then 0xA9 else 0xF6))
  }

  function Inv3(x: bv8): bv8 {
    if x & 8 == 0 then
      if x & 4 == 0 then (if x & 2 == 0 then (if x & 1 == 0 then 0x46 else 0xA7) else (if x & 1 == 0 then 0x55 else 0x82))
      else (if x & 2 == 0 then (if x & 1 == 0 then 0x9D else 0xBC) else (if x & 1 == 0 then 0x0A else 0x95))
    else
      if x & 4 == 0 then (if x & 2 == 0 then (if x & 1 == 0 then 0x2C else 0xE7) else (if x & 1 == 0 then 0x04 else 0x0F))
      else (if x & 2 == 0 then (if x & 1 == 0 then 0xF9 else 0xDD) else (if x & 1 == 0 then 0xC9 else 0xB3))
  }

  function Inv4(x: bv8): bv8 {
    if x & 8 == 0 then
      if x & 4 == 0 then (if x & 2 == 0 then (if x & 1 == 0 then 0x16 else 0x4D) else (if x & 1 == 0 then 0xC7 else 0xA6))
      else (if x & 2 == 0 then (if x & 1 == 0 then 0x9F else 0xAF) else (if x & 1 == 0 then 0xA5 else 0x30))
    else
      if x & 4 == 0 then (if x & 2 == 0 then (if x & 1 == 0 then 0x43 else 0x1F) else (if x & 1 == 0 then 0x3A else 0xAA))
      else (if x & 2 == 0 then (if x & 1 == 0 then 0x62 else 0x02) else (if x & 1 == 0 then 0x12 else 0x3D))
  }

  function Inv5(x: bv8): bv8 {
    if x & 8 == 0 then
      if x & 4 == 0 then (if x & 2 == 0 then (if x & 1 == 0 then 0x14 else 0x0D) else (if x & 1 == 0 then 0xC8 else 0x0E))
      else (if x & 2 == 0 then (if x & 1 == 0 then 0xC0 else 0xAD) else (if x & 1 == 0 then 0x5A else 0x01))
    else
      if x & 4 == 0 then (if x & 2 == 0 then (if x & 1 == 0 then 0xD9 else 0x98) else (if x & 1 == 0 then 0xB5 else 0xD5))
      else (if x & 2 == 0 then (if x & 1 == 0 then 0xFC else 0x42) else (if x & 1 == 0 then 0xD3 else 0x72))
  }

  function Inv6(x: bv8): bv8 {
    if x & 8 == 0 then
      if x & 4 == 0 then (if x & 2 == 0 then (if x & 1 == 0 then 0x93 else 0xE2) else (if x & 1 == 0 then 0x18 else 0x5B))
      else (if x & 2 == 0 then (if x & 1 == 0 then 0x13 else 0x22) else (if x & 1 == 0 then 0xF4 else 0xE6))
    else
      if x & 4 == 0 then (if x & 2 == 0 then (if x & 1 == 0 then 0x25 else 0x5E) else (if x & 1 == 0 then 0x29 else 0xFA))
      else (if x & 2 == 0 then (if x & 1 == 0 then 0x03 else 0xB1) else (if x & 1 == 0 then 0x19 else 0x27))
  }

  function Inv7(x: bv8): bv8 {
    if x & 8 == 0 then
      if x & 4 == 0 then (if x & 2 == 0 then (if x & 1 == 0 then 0x1C else 0x88) else (if x & 1 == 0 then 0xEE else 0xD1))
      else (if x & 2 == 0 then (if x & 1 == 0 then 0x24 else 0x65) else (if x & 1 == 0 then 0xB0 else 0x8A))
    else
      if x & 4 == 0 then (if x & 2 == 0 then (if x & 1 == 0 then 0xB7 else 0x99) else (if x & 1 == 0 then 0x79 else 0xBE))
      else (if x & 2 == 0 then (if x & 1 == 0 then 0x26 else 0xBD) else (if x & 1 == 0 then 0x2E else 0x31))
  }

  function Inv8(x: bv8): bv8 {
    if x & 8 == 0 then
      if x & 4 == 0 then (if x & 2 == 0 then (if x & 1 == 0 then 0x39 else 0x67) else (if x & 1 == 0 then 0xA4 else 0x40))
      else (if x & 2 == 0 then (if x & 1 == 0 then 0x80 else 0xEC) else (if x & 1 == 0 then 0x7A else 0x75))
    else
      if x & 4 == 0 then (if x & 2 == 0 then (if x & 1 == 0 then 0x60 else 0x94) else (if x & 1 == 0 then 0x2F else 0x1D))
      else (if x & 2 == 0 then (if x & 1 == 0 then 0x3C else 0x23) else (if x & 1 == 0 then 0x4C else 0x78))
  }

  function Inv9(x: bv8): bv8 {
    if x & 8 == 0 then
      if x & 4 == 0 then (if x & 2 == 0 then (if x & 1 == 0 then 0xDE else 0xB6) else (if x & 1 == 0 then 0xAC else 0x8E))
      else (if x & 2 == 0 then (if x & 1 == 0 then 0x41 else 0x05) else (if x & 1 == 0 then 0x9A else 0x6C))
    else
      if x & 4 == 0 then (if x & 2 == 0 then (if x & 1 == 0 then 0x3F else 0x49) else (if x & 1 == 0 then 0x7C else 0xD8))
      else (if x & 2 == 0 then (if x & 1 == 0 then 0xC2 else 0xCD) else (if x & 1 == 0 then 0x70 else 0x1A))
  }

  function InvA(x: bv8): bv8 {
    if x & 8 == 0 then
      if x & 4 == 0 then (if x & 2 == 0 then (if x & 1 == 0 then 0x4E else 0x6A) else (if x & 1 == 0 then 0xE5 else 0x08))
      else (if x & 2 == 0 then (if x & 1 == 0 then 0xCA else 0x90) else (if x & 1 == 0 then 0x5D else 0x3E))
    else
      if x & 4 == 0 then (if x & 2 == 0 then (if x & 1 == 0 then 0xDA else 0x74) else (if x & 1 == 0 then 0xB2 else 0x53))
      else (if x & 2 == 0 then (if x & 1 == 0 then 0x3B else 0x9B) else (if x & 1 == 0 then 0xA2 else 0x2B))
  }

  function InvB(x: bv8): bv8 {
    if x & 8 == 0 then
      if x & 4 == 0 then (if x & 2 == 0 then (if x & 1 == 0 then 0x32 else 0xD4) else (if x & 1 == 0 then 0xEA else 0x2A))
      else (if x & 2 == 0 then (if x & 1 == 0 then 0x44 else 0x59) else (if x & 1 == 0 then 0xDF else 0x6D))
    else
      if x & 4 == 0 then (if x & 2 == 0 then (if x & 1 == 0 then 0xF1 else 0x9E) else (if x & 1 == 0 then 0x09 else 0x61))
      else (if x & 2 == 0 then (if x & 1 == 0 then 0xE9 else 0xE1) else (if x & 1 == 0 then 0xF3 else 0x4B))
  }

  function InvC(x: bv8): bv8 {
    if x & 8 == 0 then
      if x & 4 == 0 then (if x & 2 == 0 then (if x & 1 == 0 then 0xFE else 0xA1) else (if x & 1 == 0 then 0x7F else 0x50))
      else (if x & 2 == 0 then (if x & 1 == 0 then 0xF5 else 0x00) else (if x & 1 == 0 then 0x6F else 0x76))
    else
      if x & 4 == 0 then (if x & 2 == 0 then (if x & 1 == 0 then 0x96 else 0x38) else (if x & 1 == 0 then 0x8F else 0x64))
      else (if x & 2 == 0 then (if x & 1 == 0 then 0xEF else 0x69) else (if x & 1 == 0 then 0xF7 else 0x51))
  }

  function InvD(x: bv8): bv8 {
    if x & 8 == 0 then
      if x & 4 == 0 then (if x & 2 == 0 then (if x & 1 == 0 then 0x91 else 0x7D) else (if x & 1 == 0 then 0x54 else 0xC4))
      else (if x & 2 == 0 then (if x & 1 == 0 then 0x35 else 0x20) else (if x & 1 == 0 then 0x6B else 0x8C))
    else
      if x & 4 == 0 then (if x & 2 == 0 then (if x & 1 == 0 then 0xC3 else 0xBB) else (if x & 1 == 0 then 0x89 else 0xBF))
      else (if x & 2 == 0 then (if x & 1 == 0 then 0x77 else 0x84) else (if x & 1 == 0 then 0x8D else 0xCC))
  }

  function InvE(x: bv8): bv8 {
    if x & 8 == 0 then
      if x & 4 == 0 then (if x & 2 == 0 then (if x & 1 == 0 then 0x07 else 0xDC) else (if x & 1 == 0 then 0xD7 else 0xA8))
      else (if x & 2 == 0 then (if x & 1 == 0 then 0x4F else 0x73) else (if x & 1 == 0 then 0x92 else 0xCB))
    else
      if x & 4 == 0 then (if x & 2 == 0 then (if x & 1 == 0 then 0x17 else 0x45) else (if x & 1 == 0 then 0x0C else 0xE3))
      else (if x & 2 == 0 then (if x & 1 == 0 then 0xFB else 0xAE) else (if x & 1 == 0 then 0xC5 else 0xD0))
  }

  function InvF(x: bv8): bv8 {
    if x & 8 == 0 then
      if x & 4 == 0 then (if x & 2 == 0 then (if x & 1 == 0 then 0xE8 else 0x71) else (if x & 1 == 0 then 0xCE else 0xA3))
      else (if x & 2 == 0 then (if x & 1 == 0 then 0xCF else 0xB4) else (if x & 1 == 0 then 0xD2 else 0xEB))
    else
      if x & 4 == 0 then (if x & 2 == 0 then (if x & 1 == 0 then 0x68 else 0x21) else (if x & 1 == 0 then 0x66 else 0xAB))
      else (if x & 2 == 0 then (if x & 1 == 0 then 0xA0 else 0x86) else (if x & 1 == 0 then 0x2D else 0xBA))
  }

  function InvSub(x: bv8): bv8 {
    if x & 0x80 == 0 then
      if x & 0x40 == 0 then
        if x & 0x20 == 0 then
          if x & 0x10 == 0 then Inv0(x) else Inv1(x)
        else
          if x & 0x10 == 0 then Inv2(x) else Inv3(x)
      else
        if x & 0x20 == 0 then
          if x & 0x10 == 0 then Inv4(x) else Inv5(x)
        else
          if x & 0x10 == 0 then Inv6(x) else Inv7(x)
    else
      if x & 0x40 == 0 then
        if x & 0x20 == 0 then
          if x & 0x10 == 0 then Inv8(x) else Inv9(x)
        else
          if x & 0x10 == 0 then InvA(x) else InvB(x)
      else
        if x & 0x20 == 0 then
          if x & 0x10 == 0 then InvC(x) else InvD(x)
        else
          if x & 0x10 == 0 then InvE(x) else InvF(x)
  }

  // The table is a bijection.
  lemma SubThenInv(x: bv8)
    ensures InvSub(Sub(x)) == x
  {
  }

  lemma InvThenSub(x: bv8)
    ensures Sub(InvSub(x)) == x
  {
  }
}
